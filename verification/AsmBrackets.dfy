/** Exactly which section names make the comparator's output ambiguous: if a name continues another section's
    key, an ordinal and a bracket with text that can follow a label, two listings with these names have equal
    outputs and are not alpha-equivalent; if none does, there are no such listings. */
module AsmBrackets {
  import opened Protocol
  import opened Decimal
  import opened AsmText
  import opened AsmMarkers
  import opened AsmContent
  import opened AsmReading
  import opened AsmFile
  import opened AsmLabels
  import opened AsmBodies
  import opened AsmAlpha
  import opened AsmRename
  import opened AsmHashes

  /** A bracket in a section name can defeat the reading back: a reference followed by ordinary text is the
      text of a different reference, to a section whose name contains the rest. */
  lemma BracketsMakeReferencesAmbiguous(key: string, n: nat, s: string, o: nat, n': nat)
    ensures RefMarker(key, n) + (s + "#" + Print(o) + ":" + Print(n') + "]")
            == RefMarker(SectionKey(key + ":" + Print(n) + "]" + s, o), n')
  {
    Regroup("__REF[", key + ":" + Print(n) + "]", s, "#" + Print(o), ":" + Print(n') + "]");
    Reassociate(s, "#" + Print(o), ":", Print(n'), "]");
    Reassociate("__REF[", key, ":", Print(n), "]");
  }

  lemma Regroup(r: string, x: string, s: string, k: string, e: string)
    ensures (r + x) + (s + k + e) == r + ((x + s) + k) + e
  {
  }

  lemma Reassociate(r: string, k: string, c: string, n: string, e: string)
    ensures r + k + c + n + e == r + (k + c + n + e) && r + k + c + n + e == r + k + (c + n + e)
  {
  }

  // ---------------------------------------------------------------- two listings

  /** Occurrence m of name a, ordinal n, and what follows in name b. */
  ghost predicate Ambiguous(a: string, m: nat, n: nat, b: string, s: string) {
    && '"' !in a && '"' !in b
    && EraseAll(b) == SectionKey(EraseAll(a), m) + ":" + Print(n) + "]" + s
    && CanFollow(s) && !SpellsMark(s)
  }

  function NumberedLabel(p: nat): string { ".La" + Print(p) }

  const OtherLabel: string := ".Lb"

  function Definitions(n: nat): seq<string> {
    seq(n + 1, p requires 0 <= p <= n => NumberedLabel(p) + ":")
  }

  function Copies(a: string, m: nat): seq<Section> { seq(m, i requires 0 <= i < m => Section(a, "", [])) }

  /** Occurrence m of a defines n + 1 labels, occurrence 0 of b one, and occurrence 1 of b jumps. */
  function Listing(a: string, m: nat, n: nat, b: string, jump: string): seq<Section> {
    Copies(a, m) + [Section(a, "", Definitions(n)), Section(b, "", [OtherLabel + ":"]), Section(b, "", [jump])]
  }

  /** A jump to a label, followed by other text. */
  function Jump(name: string, behind: string): string { "j" + (" " + (name + behind)) }

  /** What is left of the reference to b behind the reference to a. */
  function Remainder(s: string): string { s + "#" + (Print(0) + ":" + Print(0) + "]") }

  /** Jumps to the last label of a and goes on as b's name does. */
  function FirstListing(a: string, m: nat, n: nat, b: string, s: string): seq<Section> {
    Listing(a, m, n, b, Jump(NumberedLabel(n), Remainder(s)))
  }

  /** Jumps to the label of b. */
  function SecondListing(a: string, m: nat, n: nat, b: string): seq<Section> {
    Listing(a, m, n, b, Jump(OtherLabel, ""))
  }

  // ---------------------------------------------------------------- their lines

  /** Nothing, or text that can stand behind a label and is read as plain characters. */
  predicate PlainBehindLabel(r: string) { r == "" || (!SymbolPart(r[0]) && Items(r, 0) == Plain(r)) }

  lemma RemainderIsPlain(s: string)
    requires CanFollow(s) && !SpellsMark(s) && '"' !in s
    ensures PlainBehindLabel(Remainder(s)) && Unreserved(Plain(Remainder(s)))
  {
    var t, z := s + "#", Print(0) + ":" + Print(0) + "]";
    assert s + "#" + "" == t;
    if SpellsMark(t) {
      SpellsAcross(s, "");
    }
    PlainPastComment(t, 0, z, 0);
    assert t[0] == Remainder(s)[0];
    NotAmongDigits(0, '_');
    if SpellsMark(Remainder(s)) {
      SpellsAcross(s, z);
    }
    UnspeltUnreserved(Remainder(s));
  }

  lemma NothingBehind()
    ensures PlainBehindLabel("") && Unreserved(Plain(""))
  {
  }

  lemma LabelThenPlain(name: string, r: string)
    requires IsLabelName(name) && PlainBehindLabel(r)
    ensures Items(name + r, 0) == [Label(name)] + Plain(r)
  {
    LabelFirst(name, r);
    assert r == "" ==> Plain(r) == [] && Items(r, 0) == [];
  }

  lemma AfterBlank(s: string)
    ensures Items(" " + s, 0) == [Ch(' ')] + Items(s, 0)
  {
    FirstItem(" " + s, 0);
    assert (" " + s)[1..] == s;
  }

  lemma AfterJ(s: string)
    ensures Items("j" + (" " + s), 0) == [Ch('j')] + Items(" " + s, 0)
  {
    var w := "j" + (" " + s);
    SymbolLengthIs("j", " " + s);
    assert w[..1] == "j" && w[1..] == " " + s;
    FirstItem(w, 0);
  }

  lemma Three<T>(a: T, b: T, c: T, r: seq<T>)
    ensures [a] + ([b] + ([c] + r)) == [a, b, c] + r
  {
  }

  lemma JumpItems(name: string, r: string)
    requires IsLabelName(name) && PlainBehindLabel(r)
    ensures Line(Jump(name, r)) == [Ch('j'), Ch(' '), Label(name)] + Plain(r)
  {
    LabelThenPlain(name, r);
    AfterBlank(name + r);
    AfterJ(name + r);
    Three(Ch('j'), Ch(' '), Label(name), Plain(r));
  }

  lemma JumpDefinesNothing(name: string, r: string)
    requires IsLabelName(name) && PlainBehindLabel(r)
    ensures DefinedLabel(Jump(name, r)) == None
  {
    JumpItems(name, r);
    LineDefines(Jump(name, r));
  }

  lemma LabelsAreNames(p: nat)
    ensures IsLabelName(NumberedLabel(p)) && IsLabelName(OtherLabel) && NumberedLabel(p) != OtherLabel
  {
    var t := NumberedLabel(p);
    assert t[..2] == ".L" && OtherLabel[..2] == ".L" && t[2] == 'a';
    forall i | 0 <= i < |t| ensures SymbolPart(t[i]) {
      if i >= 3 {
        assert t[i] == Print(p)[i - 3];
      }
    }
  }

  lemma NumbersDiffer(p: nat, q: nat)
    requires NumberedLabel(p) == NumberedLabel(q)
    ensures p == q
  {
    assert NumberedLabel(p)[3..] == Print(p) && NumberedLabel(q)[3..] == Print(q);
    PrintInjective(p, q);
  }

  lemma DefinitionDefines(p: nat)
    ensures DefinedLabel(NumberedLabel(p) + ":") == Some(NumberedLabel(p))
    ensures DefinedLabel(OtherLabel + ":") == Some(OtherLabel)
  {
    LabelsAreNames(p);
    DefinitionItems(NumberedLabel(p));
    DefinitionItems(OtherLabel);
  }

  // ---------------------------------------------------------------- where their labels are defined

  lemma SectionsAre(a: string, m: nat, n: nat, b: string, jump: string)
    ensures var F := Listing(a, m, n, b, jump);
            && |F| == m + 3 && (forall i | 0 <= i < m :: F[i] == Section(a, "", []))
            && F[m] == Section(a, "", Definitions(n))
            && F[m + 1] == Section(b, "", [OtherLabel + ":"]) && F[m + 2] == Section(b, "", [jump])
  {
  }

  /** The places where the listings define labels. */
  predicate Place(m: nat, n: nat, i: nat, p: nat, name: string) {
    (i == m && p <= n && name == NumberedLabel(p)) || (i == m + 1 && p == 0 && name == OtherLabel)
  }

  lemma DefinedAtPlaces(a: string, m: nat, n: nat, b: string, jump: string, i: nat, p: nat, name: string)
    requires DefinedLabel(jump) == None
    ensures DefinedAt(Listing(a, m, n, b, jump), i, p, name) <==> Place(m, n, i, p, name)
  {
    SectionsAre(a, m, n, b, jump);
    DefinitionDefines(p);
  }

  lemma NothingTwice(a: string, m: nat, n: nat, b: string, jump: string, name: string)
    requires DefinedLabel(jump) == None
    ensures !DefinedTwice(Listing(a, m, n, b, jump), name)
  {
    var F := Listing(a, m, n, b, jump);
    forall i: nat, p: nat, j: nat, q: nat | DefinedAt(F, i, p, name) && DefinedAt(F, j, q, name)
      ensures (i, p) == (j, q)
    {
      DefinedAtPlaces(a, m, n, b, jump, i, p, name);
      DefinedAtPlaces(a, m, n, b, jump, j, q, name);
      LabelsAreNames(p);
      LabelsAreNames(q);
      if i == m && j == m {
        NumbersDiffer(p, q);
      }
    }
  }

  lemma {:induction false} OrdinalIs(n: nat, p: nat)
    requires p <= n + 1
    ensures Ordinal(Definitions(n), p) == p
  {
    if p > 0 {
      OrdinalIs(n, p - 1);
      DefinitionDefines(p - 1);
    }
  }

  lemma {:induction false} CountOf(sections: seq<Section>, c: string, name: string)
    requires forall i | 0 <= i < |sections| :: Canon(sections[i]) == c
    ensures Count(sections, name) == if name == c then |sections| else 0
  {
    if sections != [] {
      CountOf(sections[..|sections| - 1], c, name);
    }
  }

  lemma KeysAre(a: string, m: nat, n: nat, b: string, jump: string)
    requires EraseAll(a) != EraseAll(b)
    ensures var F := Listing(a, m, n, b, jump);
            |F| == m + 3 && Key(F, m) == SectionKey(EraseAll(a), m) && Key(F, m + 1) == SectionKey(EraseAll(b), 0)
  {
    var F := Listing(a, m, n, b, jump);
    SectionsAre(a, m, n, b, jump);
    forall i | 0 <= i <= m ensures Canon(F[i]) == EraseAll(a) {
    }
    CountOf(F[..m], EraseAll(a), EraseAll(a));
    CountOf(F[..m + 1], EraseAll(a), EraseAll(b));
  }

  lemma TableIs(a: string, m: nat, n: nat, b: string, jump: string)
    requires EraseAll(a) != EraseAll(b) && DefinedLabel(jump) == None
    ensures var F := Listing(a, m, n, b, jump);
            && |F| == m + 3 && DefineSections(F, |F|).Ok? && IsTable(TableOf(F), F)
            && (forall p: nat :: p <= n ==> NumberedLabel(p) in TableOf(F)) && OtherLabel in TableOf(F)
            && TableOf(F)[NumberedLabel(n)] == Definition(m, SectionKey(EraseAll(a), m), n)
            && TableOf(F)[OtherLabel] == Definition(m + 1, SectionKey(EraseAll(b), 0), 0)
  {
    var F := Listing(a, m, n, b, jump);
    forall name ensures !DefinedTwice(F, name) {
      NothingTwice(a, m, n, b, jump, name);
    }
    DuplicatesAreFound(F);
    DefinitionsDescribed(F, |F|);
    SectionsAre(a, m, n, b, jump);
    forall p: nat | p <= n ensures NumberedLabel(p) in TableOf(F) {
      DefinedAtPlaces(a, m, n, b, jump, m, p, NumberedLabel(p));
      InTable(TableOf(F), F, m, p, NumberedLabel(p));
    }
    DefinedAtPlaces(a, m, n, b, jump, m, n, NumberedLabel(n));
    InTable(TableOf(F), F, m, n, NumberedLabel(n));
    OrdinalIs(n, n);
    DefinedAtPlaces(a, m, n, b, jump, m + 1, 0, OtherLabel);
    InTable(TableOf(F), F, m + 1, 0, OtherLabel);
    KeysAre(a, m, n, b, jump);
  }

  // ---------------------------------------------------------------- they are accepted

  lemma JumpDefined(name: string, r: string, table: Table)
    requires IsLabelName(name) && PlainBehindLabel(r) && name in table
    ensures LineDefined(Jump(name, r), table)
  {
    JumpItems(name, r);
  }

  lemma DefinitionDefined(name: string, table: Table)
    requires IsLabelName(name) && name in table
    ensures LineDefined(name + ":", table)
  {
    DefinitionItems(name);
  }

  lemma EachDefined(a: string, m: nat, n: nat, b: string, name: string, r: string, table: Table, i: nat)
    requires IsLabelName(name) && PlainBehindLabel(r) && name in table && i < m + 3
    requires (forall p: nat :: p <= n ==> NumberedLabel(p) in table) && OtherLabel in table
    ensures |Listing(a, m, n, b, Jump(name, r))| == m + 3 && LabelsDefined(Listing(a, m, n, b, Jump(name, r))[i], table)
  {
    var F := Listing(a, m, n, b, Jump(name, r));
    SectionsAre(a, m, n, b, Jump(name, r));
    forall p | 0 <= p < |F[i].lines| ensures LineDefined(F[i].lines[p], table) {
      LabelsAreNames(p);
      JumpDefined(name, r, table);
      DefinitionDefined(OtherLabel, table);
      if i == m {
        DefinitionDefined(NumberedLabel(p), table);
      }
    }
  }

  lemma AllDefined(a: string, m: nat, n: nat, b: string, name: string, r: string)
    requires EraseAll(a) != EraseAll(b) && PlainBehindLabel(r) && (name == NumberedLabel(n) || name == OtherLabel)
    ensures var F := Listing(a, m, n, b, Jump(name, r));
            |F| == m + 3 && Accepted(F) && forall i | 0 <= i < |F| :: LabelsDefined(F[i], TableOf(F))
  {
    var F := Listing(a, m, n, b, Jump(name, r));
    LabelsAreNames(n);
    JumpDefinesNothing(name, r);
    TableIs(a, m, n, b, Jump(name, r));
    forall i | 0 <= i < |F| ensures LabelsDefined(F[i], TableOf(F)) {
      EachDefined(a, m, n, b, name, r, TableOf(F), i);
    }
    CollectedIffDefined(F, TableOf(F));
    OutcomeIs(F);
  }

  lemma OutcomeIs(F: seq<Section>)
    requires DefineSections(F, |F|).Ok?
    ensures Outcome(F) == Collected(Parts(F, TableOf(F)))
  {
  }

  // ---------------------------------------------------------------- equal outputs

  lemma AlikeTables(a: string, m: nat, n: nat, b: string, j: string, k: string)
    requires DefinedLabel(j) == None && DefinedLabel(k) == None
    ensures TableOf(Listing(a, m, n, b, j)) == TableOf(Listing(a, m, n, b, k))
  {
    var F, G := Listing(a, m, n, b, j), Listing(a, m, n, b, k);
    SectionsAre(a, m, n, b, j);
    SectionsAre(a, m, n, b, k);
    forall i | 0 <= i < |F| ensures SameDefinedLabels(F[i], G[i]) {
    }
    SameDefinitions(F, G, |F|);
  }

  lemma JumpText(name: string, r: string, text: string -> string)
    requires IsLabelName(name) && PlainBehindLabel(r)
    ensures Render(Line(Jump(name, r)), text) == Jump(text(name), r)
  {
    JumpItems(name, r);
    RenderPlain(r, text);
    RenderCons(Label(name), Plain(r), text);
    RenderCons(Ch(' '), [Label(name)] + Plain(r), text);
    RenderCons(Ch('j'), [Ch(' ')] + ([Label(name)] + Plain(r)), text);
    Three(Ch('j'), Ch(' '), Label(name), Plain(r));
  }

  /** Both jumps get the same canonical text. */
  lemma SameJump(a: string, m: nat, n: nat, b: string, s: string, table: Table)
    requires Ambiguous(a, m, n, b, s) && NumberedLabel(n) in table && OtherLabel in table
    requires table[NumberedLabel(n)] == Definition(m, SectionKey(EraseAll(a), m), n)
    requires table[OtherLabel] == Definition(m + 1, SectionKey(EraseAll(b), 0), 0)
    ensures CanonicalLine(Jump(NumberedLabel(n), Remainder(s)), table, m + 2)
            == CanonicalLine(Jump(OtherLabel, ""), table, m + 2)
  {
    LabelsAreNames(n);
    RestHasNoQuote(a, m, n, b, s);
    RemainderIsPlain(s);
    NothingBehind();
    var text := CanonText(table, m + 2);
    JumpText(NumberedLabel(n), Remainder(s), text);
    JumpText(OtherLabel, "", text);
    SameReference(SectionKey(EraseAll(a), m), n, s, EraseAll(b));
  }

  lemma SameReference(key: string, n: nat, s: string, c: string)
    requires c == key + ":" + Print(n) + "]" + s
    ensures RefMarker(key, n) + Remainder(s) == RefMarker(SectionKey(c, 0), 0) + ""
  {
    BracketsMakeReferencesAmbiguous(key, n, s, 0, 0);
    Reassociate(s + "#", Print(0), ":", Print(0), "]");
    assert RefMarker(SectionKey(c, 0), 0) + "" == RefMarker(SectionKey(c, 0), 0);
  }

  lemma RestHasNoQuote(a: string, m: nat, n: nat, b: string, s: string)
    requires Ambiguous(a, m, n, b, s)
    ensures '"' !in s && EraseAll(a) != EraseAll(b)
  {
    EraseAllAvoids(b, '"');
    forall c | c in s ensures c in EraseAll(b) {
    }
  }

  lemma SamePartOf(a: string, m: nat, n: nat, b: string, j: string, k: string, table: Table, i: nat)
    requires i < m + 3 && CanonicalLine(j, table, m + 2) == CanonicalLine(k, table, m + 2)
    requires |Listing(a, m, n, b, j)| == |Listing(a, m, n, b, k)| == m + 3
    requires LabelsDefined(Listing(a, m, n, b, j)[i], table) && LabelsDefined(Listing(a, m, n, b, k)[i], table)
    ensures Parts(Listing(a, m, n, b, j), table)[i] == Parts(Listing(a, m, n, b, k), table)[i]
  {
    var F, G := Listing(a, m, n, b, j), Listing(a, m, n, b, k);
    SectionsAre(a, m, n, b, j);
    SectionsAre(a, m, n, b, k);
    ContributionIsChunk(F, i, table);
    ContributionIsChunk(G, i, table);
    assert Chunk(F, table, i) == Chunk(G, table, i);
  }

  lemma EqualOutputs(a: string, m: nat, n: nat, b: string, s: string)
    requires Ambiguous(a, m, n, b, s)
    ensures var F, G := FirstListing(a, m, n, b, s), SecondListing(a, m, n, b);
            Accepted(F) && Accepted(G) && Outcome(F) == Outcome(G)
  {
    RestHasNoQuote(a, m, n, b, s);
    RemainderIsPlain(s);
    NothingBehind();
    LabelsAreNames(n);
    var j, k := Jump(NumberedLabel(n), Remainder(s)), Jump(OtherLabel, "");
    var F, G := Listing(a, m, n, b, j), Listing(a, m, n, b, k);
    JumpDefinesNothing(NumberedLabel(n), Remainder(s));
    JumpDefinesNothing(OtherLabel, "");
    AllDefined(a, m, n, b, NumberedLabel(n), Remainder(s));
    AllDefined(a, m, n, b, OtherLabel, "");
    TableIs(a, m, n, b, j);
    TableIs(a, m, n, b, k);
    AlikeTables(a, m, n, b, j, k);
    SameJump(a, m, n, b, s, TableOf(F));
    EqualParts(a, m, n, b, j, k, TableOf(F));
    OutcomeIs(F);
    OutcomeIs(G);
  }

  lemma EqualParts(a: string, m: nat, n: nat, b: string, j: string, k: string, table: Table)
    requires CanonicalLine(j, table, m + 2) == CanonicalLine(k, table, m + 2)
    requires |Listing(a, m, n, b, j)| == |Listing(a, m, n, b, k)| == m + 3
    requires forall i | 0 <= i < m + 3 :: LabelsDefined(Listing(a, m, n, b, j)[i], table)
    requires forall i | 0 <= i < m + 3 :: LabelsDefined(Listing(a, m, n, b, k)[i], table)
    ensures Parts(Listing(a, m, n, b, j), table) == Parts(Listing(a, m, n, b, k), table)
  {
    var xs, ys := Parts(Listing(a, m, n, b, j), table), Parts(Listing(a, m, n, b, k), table);
    forall i | 0 <= i < m + 3 ensures xs[i] == ys[i] {
      SamePartOf(a, m, n, b, j, k, table, i);
    }
  }

  // ---------------------------------------------------------------- clean, and not alpha-equivalent

  lemma {:induction false} NoMarks(items: seq<Item>)
    requires Ch('_') !in items
    ensures Unreserved(items) && !Begins(items, ATTRS_MARK)
  {
    if items != [] {
      NoMarks(items[1..]);
    }
  }

  lemma UnreservedBehind(item: Item, rest: seq<Item>)
    requires Unreserved(rest) && item != Ch('_')
    ensures Unreserved([item] + rest) && !Begins([item] + rest, ATTRS_MARK)
  {
    assert ([item] + rest)[1..] == rest;
  }

  lemma JumpIsClean(name: string, r: string)
    requires IsLabelName(name) && PlainBehindLabel(r) && Unreserved(Plain(r))
    ensures CleanLine(Jump(name, r))
  {
    JumpItems(name, r);
    UnreservedBehind(Label(name), Plain(r));
    UnreservedBehind(Ch(' '), [Label(name)] + Plain(r));
    UnreservedBehind(Ch('j'), [Ch(' ')] + ([Label(name)] + Plain(r)));
    Three(Ch('j'), Ch(' '), Label(name), Plain(r));
  }

  lemma DefinitionClean(name: string)
    requires IsLabelName(name)
    ensures CleanLine(name + ":")
  {
    DefinitionItems(name);
    NoMarks([Label(name), Ch(':')]);
  }

  lemma ListingUnmarked(a: string, m: nat, n: nat, b: string, name: string, r: string)
    requires IsLabelName(name) && PlainBehindLabel(r) && Unreserved(Plain(r))
    ensures Unmarked(Listing(a, m, n, b, Jump(name, r)))
  {
    var F := Listing(a, m, n, b, Jump(name, r));
    SectionsAre(a, m, n, b, Jump(name, r));
    forall i, p | 0 <= i < |F| && 0 <= p < |F[i].lines| ensures CleanLine(F[i].lines[p]) {
      LabelsAreNames(p);
      JumpIsClean(name, r);
      DefinitionClean(OtherLabel);
      DefinitionClean(NumberedLabel(p));
    }
  }

  lemma ListingProper(a: string, m: nat, n: nat, b: string, jump: string)
    requires '"' !in a && '"' !in b
    ensures ProperNames(Listing(a, m, n, b, jump))
  {
    SectionsAre(a, m, n, b, jump);
  }

  lemma JumpContent(name: string, r: string)
    requires IsLabelName(name) && PlainBehindLabel(r)
    ensures |Content(Jump(name, r))| == 3 + |ErasedItems(Plain(r), 0)|
  {
    JumpItems(name, r);
    Three(Ch('j'), Ch(' '), Label(name), Plain(r));
    var c := [Label(name)] + Plain(r);
    assert c[1..] == Plain(r) && ([Ch(' ')] + c)[1..] == c && ([Ch('j')] + ([Ch(' ')] + c))[1..] == [Ch(' ')] + c;
    FirstErased(c, 0);
    FirstErased([Ch(' ')] + c, 0);
    FirstErased([Ch('j')] + ([Ch(' ')] + c), 0);
  }

  lemma JumpsDiffer(name: string, r: string, other: string)
    requires IsLabelName(name) && PlainBehindLabel(r) && r != "" && IsLabelName(other)
    ensures |Content(Jump(name, r))| > |Content(Jump(other, ""))|
  {
    NothingBehind();
    JumpContent(name, r);
    JumpContent(other, "");
    ErasedHead(Plain(r), 0);
    assert Plain("") == [];
  }

  lemma NoRenamingMatches(a: string, m: nat, n: nat, b: string, j: string, k: string, r: Renaming)
    requires |Content(j)| > |Content(k)|
    ensures !MatchedBy(Listing(a, m, n, b, j), Listing(a, m, n, b, k), r)
  {
    var F, G := Listing(a, m, n, b, j), Listing(a, m, n, b, k);
    SectionsAre(a, m, n, b, j);
    SectionsAre(a, m, n, b, k);
    forall i | 0 <= i < |F| ensures Canon(F[i]) == Canon(G[i]) {
    }
    SameNamesSameKey(F, G, m + 2);
    assert Partners(F, m + 2, G, m + 2);
    assert |MapLabels(Content(F[m + 2].lines[0]), Rename(r))| == |Content(F[m + 2].lines[0])|;
    assert !SameSection(F[m + 2], G[m + 2], r);
  }

  /** Soundness fails for these names: two accepted listings that spell no mark have equal outputs, and yet
      one jumps to a label of a and the other to the label of b. */
  lemma AmbiguousNamesBreakSoundness(a: string, m: nat, n: nat, b: string, s: string)
    requires Ambiguous(a, m, n, b, s)
    ensures var F, G := FirstListing(a, m, n, b, s), SecondListing(a, m, n, b);
            && Accepted(F) && Accepted(G) && ProperNames(F) && ProperNames(G) && Unmarked(F) && Unmarked(G)
            && Outcome(F) == Outcome(G) && !AlphaEquivalent(F, G)
  {
    RestHasNoQuote(a, m, n, b, s);
    RemainderIsPlain(s);
    NothingBehind();
    LabelsAreNames(n);
    var j, k := Jump(NumberedLabel(n), Remainder(s)), Jump(OtherLabel, "");
    EqualOutputs(a, m, n, b, s);
    ListingUnmarked(a, m, n, b, NumberedLabel(n), Remainder(s));
    ListingUnmarked(a, m, n, b, OtherLabel, "");
    ListingProper(a, m, n, b, j);
    ListingProper(a, m, n, b, k);
    JumpsDiffer(NumberedLabel(n), Remainder(s), OtherLabel);
    forall r {
      NoRenamingMatches(a, m, n, b, j, k, r);
    }
  }

  // ---------------------------------------------------------------- exactly the ambiguous names

  predicate NamesFrom(F: seq<Section>, names: set<string>) { forall i | 0 <= i < |F| :: F[i].name in names }

  /** Listings with these section names only, which spell no mark. */
  ghost predicate Comparable(F: seq<Section>, names: set<string>) { Accepted(F) && Unmarked(F) && NamesFrom(F, names) }

  /** Equal outputs mean alpha-equivalence for all listings with these section names. */
  ghost predicate SoundFor(names: set<string>) {
    forall F, G :: Comparable(F, names) && Comparable(G, names) && Outcome(F) == Outcome(G) ==> AlphaEquivalent(F, G)
  }

  /** Some occurrence of a has a key that runs into the name b. */
  ghost predicate Confusable(a: string, b: string) {
    exists m: nat :: RunsInto(SectionKey(EraseAll(a), m), EraseAll(b))
  }

  /** Names as a section directive can give them, none of them spelling a mark. */
  predicate OrdinaryNames(names: set<string>) { forall a | a in names :: '"' !in a && !SpellsMark(EraseAll(a)) }

  lemma UnconfusableUnambiguous(F: seq<Section>, names: set<string>)
    requires NamesFrom(F, names) && OrdinaryNames(names) && forall a, b | a in names && b in names :: !Confusable(a, b)
    ensures ProperNames(F) && Unambiguous(F)
  {
    forall i, j | 0 <= i < |F| && 0 <= j < |F| ensures !RunsInto(Key(F, i), Canon(F[j])) {
      assert !Confusable(F[i].name, F[j].name);
    }
  }

  lemma ConfusableIsAmbiguous(names: set<string>, a: string, b: string) returns (m: nat, n: nat, s: string)
    requires OrdinaryNames(names) && a in names && b in names && Confusable(a, b)
    ensures Ambiguous(a, m, n, b, s)
  {
    m :| RunsInto(SectionKey(EraseAll(a), m), EraseAll(b));
    n, s :| EraseAll(b) == SectionKey(EraseAll(a), m) + ":" + Print(n) + "]" + s && CanFollow(s);
    var head := SectionKey(EraseAll(a), m) + ":" + Print(n) + "]";
    if SpellsMark(s) {
      SpellsBehind(head, s);
    }
  }

  lemma ConfusableBreaksSoundness(names: set<string>, a: string, b: string)
    requires OrdinaryNames(names) && a in names && b in names && Confusable(a, b)
    ensures !SoundFor(names)
  {
    var m, n, s := ConfusableIsAmbiguous(names, a, b);
    AmbiguousBreaksSoundness(names, a, m, n, b, s);
  }

  lemma ListingNames(a: string, m: nat, n: nat, b: string, jump: string, names: set<string>)
    requires a in names && b in names
    ensures NamesFrom(Listing(a, m, n, b, jump), names) && Listing(a, m, n, b, jump) != []
  {
    SectionsAre(a, m, n, b, jump);
  }

  lemma AmbiguousBreaksSoundness(names: set<string>, a: string, m: nat, n: nat, b: string, s: string)
    requires a in names && b in names && Ambiguous(a, m, n, b, s)
    ensures !SoundFor(names)
  {
    AmbiguousNamesBreakSoundness(a, m, n, b, s);
    ListingNames(a, m, n, b, Jump(NumberedLabel(n), Remainder(s)), names);
    ListingNames(a, m, n, b, Jump(OtherLabel, ""), names);
    var F, G := FirstListing(a, m, n, b, s), SecondListing(a, m, n, b);
    assert Comparable(F, names) && Comparable(G, names);
  }

  /** Soundness, exactly, over section names that spell no mark: equal outputs mean alpha-equivalence for all
      listings with these names if and only if no name runs on from an occurrence of another. */
  lemma SoundExactly(names: set<string>)
    requires OrdinaryNames(names)
    ensures SoundFor(names) <==> forall a, b | a in names && b in names :: !Confusable(a, b)
  {
    if forall a, b | a in names && b in names :: !Confusable(a, b) {
      forall F, G | Comparable(F, names) && Comparable(G, names) && Outcome(F) == Outcome(G)
        ensures AlphaEquivalent(F, G) {
        UnconfusableUnambiguous(F, names);
        UnconfusableUnambiguous(G, names);
        EqualOutputsAlphaEquivalent(F, G);
      }
    }
    forall a, b | a in names && b in names && Confusable(a, b) ensures !SoundFor(names) {
      ConfusableBreaksSoundness(names, a, b);
    }
  }
}
