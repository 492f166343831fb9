/** Instance hashes: which parts of a line are erased, and that the outcome depends on lines and attributes
    only through what is left. */
module AsmHashes {
  import opened Protocol
  import opened Decimal
  import opened AsmText
  import opened AsmMarkers
  import opened AsmContent
  import opened AsmFile
  import opened AsmLabels
  import opened AsmBodies
  import opened AsmAlpha
  import opened AsmRename

  // ---------------------------------------------------------------- where hashes are erased

  /** The text ends outside any string. */
  predicate EndsOutside(x: string)
    decreases |x|
  {
    || x == []
    || (if x[0] == '"' then CloseQuote(x[1..]).Some? && EndsOutside(x[1..][CloseQuote(x[1..]).value..])
      else EndsOutside(x[1..]))
  }

  predicate IsHash(h: string) { |h| == HASH_LENGTH && HashTail(h, 0) }

  lemma {:induction false} HashTailGrows(x: string, z: string, p: nat)
    requires p <= HASH_LENGTH && HashTail(x, p)
    ensures HashTail(x + z, p)
    decreases HASH_LENGTH - p
  {
    if p < HASH_LENGTH {
      assert (x + z)[1..] == x[1..] + z;
      HashTailGrows(x[1..], z, p + 1);
    }
  }

  lemma NoHashInside(z: string, p: nat)
    requires HashTail(z, 0) && 0 < p < HASH_LENGTH
    ensures !HashTail(z, p)
  {
    assert z[0] == '1' && z[1..][0] == '7' && z[1..][1..][0] == 'h';
    if p + 2 < HASH_LENGTH {
      assert !HashTail(z[1..][1..], p + 2);
    }
  }

  /** A hash cannot start before another one and run into it. */
  lemma {:induction false} HashesDoNotOverlap(x: string, z: string, p: nat)
    requires p < HASH_LENGTH && HashTail(z, 0) && HashTail(x + z, p) && (x == [] ==> p > 0)
    ensures HashTail(x, p)
    decreases HASH_LENGTH - p
  {
    assert x == [] ==> x + z == z;
    if p > 0 {
      NoHashInside(z, p);
    }
    if x != [] {
      assert (x + z)[1..] == x[1..] + z;
      if p + 1 < HASH_LENGTH {
        HashesDoNotOverlap(x[1..], z, p + 1);
      }
    }
  }

  lemma {:induction false} HashEndsOutside(x: string, p: nat)
    requires p <= HASH_LENGTH && HashTail(x, p) && EndsOutside(x)
    ensures |x| >= HASH_LENGTH - p && EndsOutside(x[HASH_LENGTH - p..])
    decreases HASH_LENGTH - p
  {
    if p < HASH_LENGTH {
      HashEndsOutside(x[1..], p + 1);
    }
  }

  /** The inside of a string is kept as it is. */
  lemma StringsAreKept(s: string)
    requires CloseQuote(s).Some?
    ensures var n := CloseQuote(s).value; NormalizeHashes("\"" + s) == "\"" + s[..n] + NormalizeHashes(s[n..])
  {
    var n := CloseQuote(s).value;
    StringOpens(s, n);
    StringInside(s, n);
    Regrouped("\"", s[..n], NormalizeHashes(s[n..]));
  }

  lemma StringOpens(s: string, n: nat)
    requires CloseQuote(s) == Some(n)
    ensures Erased("\"" + s, 0) == "\"" + Erased(s, n)
  {
    assert ("\"" + s)[1..] == s;
  }

  lemma StringInside(s: string, n: nat)
    requires n <= |s|
    ensures Erased(s, n) == s[..n] + Erased(s[n..], 0)
  {
    ErasedBehind(s, s[..n], s[n..]);
  }

  lemma ErasedBehind(s: string, t: string, r: string)
    requires s == t + r
    ensures Erased(s, |t|) == t + Erased(r, 0)
  {
    QuietSkips(t, r, 0);
  }

  /** An instance hash outside strings is erased whatever its digits, and does not affect its surroundings. */
  lemma {:induction false} HashesAreErased(x: string, h: string, y: string)
    requires EndsOutside(x) && IsHash(h)
    ensures NormalizeHashes(x + (h + y)) == NormalizeHashes(x) + (ERASED_HASH + NormalizeHashes(y))
    decreases |x|, 1
  {
    HashTailGrows(h, y, 0);
    if x == [] {
      HashInFrontErased(h, y);
    } else if x[0] == '"' {
      HashAfterQuote(x, h, y);
    } else if HashTail(x, 0) {
      HashAfterAnother(x, h, y);
    } else {
      HashAfterCharacter(x, h, y);
    }
  }

  lemma HashInFrontErased(h: string, y: string)
    requires IsHash(h) && HashTail(h + y, 0)
    ensures NormalizeHashes("" + (h + y)) == NormalizeHashes("") + (ERASED_HASH + NormalizeHashes(y))
  {
    assert (h + y)[HASH_LENGTH..] == y;
    HashErased(h + y, y);
    assert "" + (h + y) == h + y && NormalizeHashes("") == "";
  }

  lemma HashAfterQuote(x: string, h: string, y: string)
    requires EndsOutside(x) && IsHash(h) && x != [] && x[0] == '"'
    ensures NormalizeHashes(x + (h + y)) == NormalizeHashes(x) + (ERASED_HASH + NormalizeHashes(y))
    decreases |x|, 0
  {
    HashesAreErased(x[1..][CloseQuote(x[1..]).value..], h, y);
    JoinString(x[1..], h + y, ERASED_HASH + NormalizeHashes(y));
    QuotedAgain(x, h + y);
  }

  lemma QuotedAgain(x: string, z: string)
    requires x != [] && x[0] == '"'
    ensures x == "\"" + x[1..] && x + z == "\"" + (x[1..] + z)
  {
  }

  lemma HashAfterAnother(x: string, h: string, y: string)
    requires EndsOutside(x) && IsHash(h) && x != [] && HashTail(x, 0)
    ensures NormalizeHashes(x + (h + y)) == NormalizeHashes(x) + (ERASED_HASH + NormalizeHashes(y))
    decreases |x|, 0
  {
    HashEndsOutside(x, 0);
    HashesAreErased(x[HASH_LENGTH..], h, y);
    JoinHash(x, h + y, ERASED_HASH + NormalizeHashes(y));
  }

  lemma HashAfterCharacter(x: string, h: string, y: string)
    requires EndsOutside(x) && IsHash(h) && x != [] && x[0] != '"' && !HashTail(x, 0) && HashTail(h + y, 0)
    ensures NormalizeHashes(x + (h + y)) == NormalizeHashes(x) + (ERASED_HASH + NormalizeHashes(y))
    decreases |x|, 0
  {
    HashesAreErased(x[1..], h, y);
    JoinPlain(x, h + y, ERASED_HASH + NormalizeHashes(y));
  }

  lemma JoinString(s: string, z: string, e: string)
    requires CloseQuote(s).Some?
    requires var n := CloseQuote(s).value; NormalizeHashes(s[n..] + z) == NormalizeHashes(s[n..]) + e
    ensures NormalizeHashes("\"" + (s + z)) == NormalizeHashes("\"" + s) + e
  {
    HashAfterString(s, z);
    var n := CloseQuote(s).value;
    Regrouped("\"" + s[..n], NormalizeHashes(s[n..]), e);
  }

  lemma JoinPlain(x: string, z: string, e: string)
    requires x != [] && x[0] != '"' && !HashTail(x, 0) && HashTail(z, 0)
    requires NormalizeHashes(x[1..] + z) == NormalizeHashes(x[1..]) + e
    ensures NormalizeHashes(x + z) == NormalizeHashes(x) + e
  {
    HashAfterPlain(x, z);
    Regrouped([x[0]], NormalizeHashes(x[1..]), e);
  }

  lemma JoinHash(x: string, z: string, e: string)
    requires HashTail(x, 0) && |x| >= HASH_LENGTH
    requires NormalizeHashes(x[HASH_LENGTH..] + z) == NormalizeHashes(x[HASH_LENGTH..]) + e
    ensures NormalizeHashes(x + z) == NormalizeHashes(x) + e
  {
    HashAfterHash(x, z);
    HashErased(x, x[HASH_LENGTH..]);
    Regrouped(ERASED_HASH, NormalizeHashes(x[HASH_LENGTH..]), e);
  }

  lemma Regrouped(a: string, b: string, c: string)
    ensures a + (b + c) == (a + b) + c
  {
  }

  lemma HashAfterString(s: string, z: string)
    requires CloseQuote(s).Some?
    ensures var n := CloseQuote(s).value;
            && NormalizeHashes("\"" + (s + z)) == ("\"" + s[..n]) + NormalizeHashes(s[n..] + z)
            && NormalizeHashes("\"" + s) == ("\"" + s[..n]) + NormalizeHashes(s[n..])
  {
    var n := CloseQuote(s).value;
    assert (s + z)[..n] == s[..n] && (s + z)[n..] == s[n..] + z;
    CloseQuotePrefix(s, s + z);
    StringsAreKept(s);
    StringsAreKept(s + z);
  }

  lemma HashInFront(x: string, z: string)
    requires HashTail(x, 0)
    ensures |x| >= HASH_LENGTH && HashTail(x + z, 0) && (x + z)[HASH_LENGTH..] == x[HASH_LENGTH..] + z
  {
    HashTailLength(x, 0);
    HashTailGrows(x, z, 0);
  }

  lemma HashAfterHash(x: string, z: string)
    requires HashTail(x, 0)
    ensures |x| >= HASH_LENGTH
    ensures NormalizeHashes(x + z) == ERASED_HASH + NormalizeHashes(x[HASH_LENGTH..] + z)
  {
    HashInFront(x, z);
    HashErased(x + z, x[HASH_LENGTH..] + z);
  }

  lemma NoNewHash(x: string, z: string)
    requires x != [] && !HashTail(x, 0) && HashTail(z, 0)
    ensures !HashTail(x + z, 0)
  {
    if HashTail(x + z, 0) {
      HashesDoNotOverlap(x, z, 0);
    }
  }

  lemma PlainKept(s: string, rest: string)
    requires s != [] && s[0] != '"' && !HashTail(s, 0) && s[1..] == rest
    ensures NormalizeHashes(s) == [s[0]] + NormalizeHashes(rest)
  {
  }

  lemma HashAfterPlain(x: string, z: string)
    requires x != [] && x[0] != '"' && !HashTail(x, 0) && HashTail(z, 0)
    ensures NormalizeHashes(x + z) == [x[0]] + NormalizeHashes(x[1..] + z)
    ensures NormalizeHashes(x) == [x[0]] + NormalizeHashes(x[1..])
  {
    NoNewHash(x, z);
    PlainKept(x + z, x[1..] + z);
    PlainKept(x, x[1..]);
  }

  /** Changing one instance hash outside strings does not show. */
  lemma ChangedHashDoesNotShow(x: string, h: string, g: string, y: string)
    requires EndsOutside(x) && IsHash(h) && IsHash(g)
    ensures NormalizeHashes(x + (h + y)) == NormalizeHashes(x + (g + y))
  {
    HashesAreErased(x, h, y);
    HashesAreErased(x, g, y);
  }

  // ---------------------------------------------------------------- the outcome of a listing

  /** Listings that differ only in instance hashes: in section names, in attributes outside strings, and in
      lines outside strings and local labels. */
  predicate SameButHashes(F: seq<Section>, G: seq<Section>) {
    |F| == |G| && forall i | 0 <= i < |F| :: SectionsSameButHashes(F[i], G[i])
  }

  predicate SectionsSameButHashes(s: Section, t: Section) {
    && Canon(s) == Canon(t) && NormalizeHashes(Strip(s.attrs)) == NormalizeHashes(Strip(t.attrs))
    && |s.lines| == |t.lines| && forall p | 0 <= p < |s.lines| :: Content(s.lines[p]) == Content(t.lines[p])
  }

  lemma LabelsJoin(front: seq<Item>, rest: seq<Item>, labels: set<string>)
    ensures LabelsOnly(front + rest, labels) <==> LabelsOnly(front, labels) && LabelsOnly(rest, labels)
  {
    var all := front + rest;
    assert forall k | 0 <= k < |front| :: all[k] == front[k];
    assert forall k | 0 <= k < |rest| :: rest[k] == all[|front| + k];
  }

  lemma {:induction false} ErasedKeepsLabels(items: seq<Item>, quiet: nat, labels: set<string>)
    requires quiet <= |items| && LabelsOnly(ErasedItems(items, quiet), labels)
    ensures LabelsOnly(items, labels)
    decreases |items|
  {
    if items != [] {
      if quiet == 0 && HashItems(items, 0) {
        HashHasNoLabels(items, 0);
        LabelsJoin(Plain(ERASED_HASH), ErasedItems(items[HASH_LENGTH..], 0), labels);
        ErasedKeepsLabels(items[HASH_LENGTH..], 0, labels);
        LabelsJoin(items[..HASH_LENGTH], items[HASH_LENGTH..], labels);
        assert items == items[..HASH_LENGTH] + items[HASH_LENGTH..];
      } else {
        var next := if quiet > 0 then quiet - 1
                    else if items[0] == Ch('"') && CloseItems(items[1..]).Some? then CloseItems(items[1..]).value
                      else 0;
        LabelsJoin([items[0]], ErasedItems(items[1..], next), labels);
        ErasedKeepsLabels(items[1..], next, labels);
        LabelsJoin([items[0]], items[1..], labels);
        assert items == [items[0]] + items[1..];
      }
    }
  }

  lemma {:induction false} HashHasNoLabels(items: seq<Item>, p: nat)
    requires p <= HASH_LENGTH && HashItems(items, p)
    ensures |items| >= HASH_LENGTH - p && forall k | 0 <= k < HASH_LENGTH - p :: items[k].Ch?
    decreases HASH_LENGTH - p
  {
    if p < HASH_LENGTH {
      HashHasNoLabels(items[1..], p + 1);
      assert forall k | 1 <= k < HASH_LENGTH - p :: items[k] == items[1..][k - 1];
    }
  }

  lemma SameContentSameLabels(l: string, m: string, table: Table)
    requires Content(l) == Content(m)
    ensures LineDefined(l, table) <==> LineDefined(m, table)
    ensures DefinedLabel(l) == DefinedLabel(m)
  {
    ContentDefines(l);
    ContentDefines(m);
    if LineDefined(l, table) {
      ErasedLabels(Line(l), 0, table.Keys);
      ErasedKeepsLabels(Line(m), 0, table.Keys);
    }
    if LineDefined(m, table) {
      ErasedLabels(Line(m), 0, table.Keys);
      ErasedKeepsLabels(Line(l), 0, table.Keys);
    }
  }

  lemma {:induction false} SameLinesSameDefinitions(table: Table, owner: nat, key: string, a: seq<string>,
                                                    b: seq<string>)
    requires |a| == |b| && forall p | 0 <= p < |a| :: DefinedLabel(a[p]) == DefinedLabel(b[p])
    ensures DefineLines(table, owner, key, a) == DefineLines(table, owner, key, b)
  {
    if a != [] {
      SameLinesSameDefinitions(table, owner, key, a[..|a| - 1], b[..|b| - 1]);
      assert DefinedLabel(a[|a| - 1]) == DefinedLabel(b[|b| - 1]);
    }
  }

  lemma SameSectionDefinitions(s: Section, t: Section)
    requires SectionsSameButHashes(s, t)
    ensures SameDefinedLabels(s, t)
  {
    forall p | 0 <= p < |s.lines| ensures DefinedLabel(s.lines[p]) == DefinedLabel(t.lines[p]) {
      SameContentSameLabels(s.lines[p], t.lines[p], map[]);
    }
  }

  /** Same name, and the same labels defined on the same lines. */
  predicate SameDefinedLabels(s: Section, t: Section) {
    && Canon(s) == Canon(t) && |s.lines| == |t.lines|
    && forall p | 0 <= p < |s.lines| :: DefinedLabel(s.lines[p]) == DefinedLabel(t.lines[p])
  }

  predicate AllSameDefinedLabels(F: seq<Section>, G: seq<Section>) {
    |F| == |G| && forall i | 0 <= i < |F| :: SameDefinedLabels(F[i], G[i])
  }

  /** Section i numbers its definitions alike in both listings, whatever was defined before. */
  ghost predicate SameStep(F: seq<Section>, G: seq<Section>, i: nat)
    requires i < |F| == |G|
  {
    forall table :: DefineLines(table, i, Key(F, i), F[i].lines) == DefineLines(table, i, Key(G, i), G[i].lines)
  }

  lemma SameSectionStep(F: seq<Section>, G: seq<Section>, i: nat)
    requires AllSameDefinedLabels(F, G) && i < |F|
    ensures SameStep(F, G, i)
  {
    KeysOfSameLabels(F, G, i);
    assert SameDefinedLabels(F[i], G[i]);
    forall table {
      SameLinesSameDefinitions(table, i, Key(F, i), F[i].lines, G[i].lines);
    }
  }

  lemma {:induction false} SameSteps(F: seq<Section>, G: seq<Section>, n: nat)
    requires n <= |F| == |G| && forall i | 0 <= i < n :: SameStep(F, G, i)
    ensures DefineSections(F, n) == DefineSections(G, n)
  {
    if n > 0 {
      SameSteps(F, G, n - 1);
      assert SameStep(F, G, n - 1);
    }
  }

  lemma SameDefinitions(F: seq<Section>, G: seq<Section>, n: nat)
    requires AllSameDefinedLabels(F, G) && n <= |F|
    ensures DefineSections(F, n) == DefineSections(G, n)
  {
    forall i | 0 <= i < n ensures SameStep(F, G, i) {
      SameSectionStep(F, G, i);
    }
    SameSteps(F, G, n);
  }

  lemma KeysOfSameLabels(F: seq<Section>, G: seq<Section>, i: nat)
    requires AllSameDefinedLabels(F, G) && i < |F|
    ensures Key(F, i) == Key(G, i)
  {
    forall k | 0 <= k < |F| ensures Canon(F[k]) == Canon(G[k]) {
      assert SameDefinedLabels(F[k], G[k]);
    }
    SameNamesSameKey(F, G, i);
  }

  lemma SameSectionLabels(s: Section, t: Section, table: Table)
    requires SectionsSameButHashes(s, t)
    ensures LabelsDefined(s, table) <==> LabelsDefined(t, table)
  {
    forall p | 0 <= p < |s.lines| ensures LineDefined(s.lines[p], table) <==> LineDefined(t.lines[p], table) {
      SameContentSameLabels(s.lines[p], t.lines[p], table);
    }
  }

  lemma SameChunk(F: seq<Section>, G: seq<Section>, table: Table, i: nat)
    requires SameButHashes(F, G) && i < |F| && IsTable(table, F) && IsTable(table, G) && ProperNames(F)
             && ProperNames(G)
    requires LabelsDefined(F[i], table) && LabelsDefined(G[i], table)
    ensures Chunk(F, table, i) == Chunk(G, table, i)
  {
    assert SectionsSameButHashes(F[i], G[i]);
    forall p | 0 <= p < |F[i].lines|
      ensures CanonicalLine(F[i].lines[p], table, i) == CanonicalLine(G[i].lines[p], table, i) {
      assert LineDefined(F[i].lines[p], table) && LineDefined(G[i].lines[p], table);
      CanonicalLineIs(F[i].lines[p], F, table, i);
      CanonicalLineIs(G[i].lines[p], G, table, i);
    }
  }

  lemma SamePart(F: seq<Section>, G: seq<Section>, table: Table, i: nat)
    requires SameButHashes(F, G) && i < |F| && IsTable(table, F) && IsTable(table, G) && ProperNames(F)
             && ProperNames(G)
    ensures Parts(F, table)[i].lines.Ok? <==> Parts(G, table)[i].lines.Ok?
    ensures Parts(F, table)[i].lines.Ok? ==> Parts(F, table)[i] == Parts(G, table)[i]
  {
    assert SectionsSameButHashes(F[i], G[i]);
    SameSectionLabels(F[i], G[i], table);
    ContributionIsChunk(F, i, table);
    ContributionIsChunk(G, i, table);
    if LabelsDefined(F[i], table) {
      SameChunk(F, G, table, i);
    }
  }

  /** Changing instance hashes changes neither the verdict on a listing nor its output. */
  lemma HashesDoNotMatter(F: seq<Section>, G: seq<Section>)
    requires SameButHashes(F, G) && ProperNames(F) && ProperNames(G)
    ensures Accepted(F) <==> Accepted(G)
    ensures Accepted(F) ==> Outcome(F) == Outcome(G)
  {
    forall i | 0 <= i < |F| ensures SameDefinedLabels(F[i], G[i]) {
      assert SectionsSameButHashes(F[i], G[i]);
      SameSectionDefinitions(F[i], G[i]);
    }
    SameDefinitions(F, G, |F|);
    DefinitionsDescribed(F, |F|);
    DefinitionsDescribed(G, |G|);
    if DefineSections(F, |F|).Ok? {
      var table := DefineSections(F, |F|).value;
      forall i | 0 <= i < |F|
        ensures Parts(F, table)[i].lines.Ok? <==> Parts(G, table)[i].lines.Ok?
        ensures Parts(F, table)[i].lines.Ok? ==> Parts(F, table)[i] == Parts(G, table)[i]
      {
        SamePart(F, G, table, i);
      }
      SameCollected(Parts(F, table), Parts(G, table));
    }
  }

  lemma {:induction false} SameCollected(xs: seq<Part>, ys: seq<Part>)
    requires |xs| == |ys|
    requires forall i | 0 <= i < |xs| :: xs[i].lines.Ok? <==> ys[i].lines.Ok?
    requires forall i | 0 <= i < |xs| :: xs[i].lines.Ok? ==> xs[i] == ys[i]
    ensures Collected(xs).Ok? <==> Collected(ys).Ok?
    ensures Collected(xs).Ok? ==> Collected(xs) == Collected(ys)
  {
    if xs != [] {
      SameCollected(xs[..|xs| - 1], ys[..|ys| - 1]);
      assert xs[|xs| - 1].lines.Ok? <==> ys[|ys| - 1].lines.Ok?;
    }
  }
}
