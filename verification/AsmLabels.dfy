/** Where labels are defined: the table of definitions gives every label one address (section, ordinal), and
    the text written for a label tells its address apart from every other. */
module AsmLabels {
  import opened Protocol
  import opened Decimal
  import opened AsmText
  import opened AsmMarkers
  import opened AsmContent
  import opened AsmReading
  import opened AsmFile

  // ---------------------------------------------------------------- occurrences

  lemma {:induction false} CountGrows(sections: seq<Section>, i: nat, j: nat)
    requires i < j <= |sections|
    ensures Count(sections[..j], Canon(sections[i])) > Occurrence(sections, i)
    decreases j
  {
    assert sections[..j][..j - 1] == sections[..j - 1];
    if i + 1 < j {
      CountGrows(sections, i, j - 1);
    }
  }

  /** A section is known by its canonical name and its occurrence among sections of that name. */
  predicate Partners(F: seq<Section>, i: nat, G: seq<Section>, j: nat) {
    i < |F| && j < |G| && Canon(F[i]) == Canon(G[j]) && Occurrence(F, i) == Occurrence(G, j)
  }

  lemma PartnersUnique(F: seq<Section>, i: nat, G: seq<Section>, j: nat, k: nat)
    requires Partners(F, i, G, j) && Partners(F, i, G, k)
    ensures j == k
  {
    if j < k {
      CountGrows(G, j, k);
    } else if k < j {
      CountGrows(G, k, j);
    }
  }

  lemma PartnersBothWays(F: seq<Section>, i: nat, i': nat, G: seq<Section>, j: nat, j': nat)
    requires Partners(F, i, G, j) && Partners(F, i', G, j')
    ensures i == i' <==> j == j'
  {
    if i == i' {
      PartnersUnique(F, i, G, j, j');
    }
    if j == j' {
      assert Partners(G, j, F, i) && Partners(G, j, F, i');
      PartnersUnique(G, j, F, i, i');
    }
  }

  lemma SameKeyArePartners(F: seq<Section>, i: nat, G: seq<Section>, j: nat)
    requires i < |F| && j < |G|
    ensures Key(F, i) == Key(G, j) <==> Partners(F, i, G, j)
  {
    if Key(F, i) == Key(G, j) {
      SectionKeyInjective(Canon(F[i]), Occurrence(F, i), Canon(G[j]), Occurrence(G, j));
    }
  }

  // ---------------------------------------------------------------- the table of definitions

  predicate DefinedAt(sections: seq<Section>, i: nat, p: nat, name: string) {
    i < |sections| && p < |sections[i].lines| && DefinedLabel(sections[i].lines[p]) == Some(name)
  }

  /** How many labels are defined before line p. */
  function Ordinal(lines: seq<string>, p: nat): nat
    requires p <= |lines|
  {
    if p == 0 then 0 else Ordinal(lines, p - 1) + if DefinedLabel(lines[p - 1]).Some? then 1 else 0
  }

  lemma {:induction false} OrdinalGrows(lines: seq<string>, p: nat, q: nat)
    requires p < q <= |lines| && DefinedLabel(lines[p]).Some?
    ensures Ordinal(lines, p) < Ordinal(lines, q)
    decreases q
  {
    if p + 1 < q {
      OrdinalGrows(lines, p, q - 1);
    }
  }

  predicate Earlier(i: nat, p: nat, n: nat, q: nat) { i < n || (i == n && p < q) }

  predicate Recorded(table: Table, sections: seq<Section>, i: nat, p: nat, name: string)
    requires DefinedAt(sections, i, p, name)
  {
    name in table && table[name] == Definition(i, Key(sections, i), Ordinal(sections[i].lines, p))
  }

  ghost predicate AllRecorded(table: Table, sections: seq<Section>, n: nat, q: nat) {
    forall i: nat, p: nat, name ::
      DefinedAt(sections, i, p, name) && Earlier(i, p, n, q) ==> Recorded(table, sections, i, p, name)
  }

  ghost predicate DefinedBefore(sections: seq<Section>, name: string, n: nat, q: nat) {
    exists i: nat, p: nat :: DefinedAt(sections, i, p, name) && Earlier(i, p, n, q)
  }

  /** The table says exactly what the lines before line q of section n define, and where. */
  ghost predicate Describes(table: Table, sections: seq<Section>, n: nat, q: nat) {
    && AllRecorded(table, sections, n, q)
    && (forall name :: name in table ==> DefinedBefore(sections, name, n, q))
  }

  ghost predicate DefinedTwice(sections: seq<Section>, name: string) {
    exists i: nat, p: nat, j: nat, q: nat ::
          DefinedAt(sections, i, p, name) && DefinedAt(sections, j, q, name) && (i, p) != (j, q)
  }

  lemma {:induction false} LinesDescribed(before: Table, sections: seq<Section>, n: nat, q: nat)
    requires n < |sections| && q <= |sections[n].lines| && Describes(before, sections, n, 0)
    ensures var r := DefineLines(before, n, Key(sections, n), sections[n].lines[..q]);
            match r
            case Ok(numbering) =>
              Describes(numbering.table, sections, n, q) && numbering.ordinal == Ordinal(sections[n].lines, q)
            case Err(e) => e.Duplicate? && DefinedTwice(sections, e.token)
  {
    var lines := sections[n].lines;
    if q > 0 {
      LinesDescribed(before, sections, n, q - 1);
      assert lines[..q][..q - 1] == lines[..q - 1];
      var r := DefineLines(before, n, Key(sections, n), lines[..q - 1]);
      if r.Ok? {
        OneMoreLine(r.value, sections, n, q - 1);
      }
    }
  }

  lemma OneMoreLine(numbering: Numbering, sections: seq<Section>, n: nat, q: nat)
    requires n < |sections| && q < |sections[n].lines|
    requires Describes(numbering.table, sections, n, q) && numbering.ordinal == Ordinal(sections[n].lines, q)
    ensures var r := DefineLine(numbering, n, Key(sections, n), sections[n].lines[q]);
            match r
            case Ok(m) => Describes(m.table, sections, n, q + 1) && m.ordinal == Ordinal(sections[n].lines, q + 1)
            case Err(e) => e.Duplicate? && DefinedTwice(sections, e.token)
  {
    var table := numbering.table;
    DefinedGrows(table, sections, n, q);
    match DefinedLabel(sections[n].lines[q]) {
      case None =>
        OtherLinesRecorded(table, sections, n, q, None);
      case Some(token) =>
        if token in table {
          SecondDefinition(sections, n, q, token);
        } else {
          OtherLinesRecorded(table, sections, n, q, Some(token));
          assert DefinedAt(sections, n, q, token) && Earlier(n, q, n, q + 1);
        }
    }
  }

  lemma DefinedGrows(table: Table, sections: seq<Section>, n: nat, q: nat)
    requires forall name :: name in table ==> DefinedBefore(sections, name, n, q)
    ensures forall name :: name in table ==> DefinedBefore(sections, name, n, q + 1)
  {
    forall name | name in table ensures DefinedBefore(sections, name, n, q + 1) {
      var i: nat, p: nat :| DefinedAt(sections, i, p, name) && Earlier(i, p, n, q);
      assert Earlier(i, p, n, q + 1);
    }
  }

  lemma SecondDefinition(sections: seq<Section>, n: nat, q: nat, token: string)
    requires DefinedAt(sections, n, q, token) && DefinedBefore(sections, token, n, q)
    ensures DefinedTwice(sections, token)
  {
    var i: nat, p: nat :| DefinedAt(sections, i, p, token) && Earlier(i, p, n, q);
    assert (i, p) != (n, q);
  }

  lemma OtherLinesRecorded(table: Table, sections: seq<Section>, n: nat, q: nat, token: Option<string>)
    requires n < |sections| && q < |sections[n].lines| && AllRecorded(table, sections, n, q)
    requires token == DefinedLabel(sections[n].lines[q]) && (token.Some? ==> token.value !in table)
    ensures token.None? ==> AllRecorded(table, sections, n, q + 1)
    ensures token.Some? ==>
              AllRecorded(table[token.value := Definition(n, Key(sections, n), Ordinal(sections[n].lines, q))],
                  sections, n, q + 1)
  {
    var after := if token.None? then table
                 else table[token.value := Definition(n, Key(sections, n), Ordinal(sections[n].lines, q))];
    forall i: nat, p: nat, name | DefinedAt(sections, i, p, name) && Earlier(i, p, n, q + 1)
      ensures Recorded(after, sections, i, p, name)
    {
      assert Earlier(i, p, n, q) ==> Recorded(table, sections, i, p, name);
    }
  }

  /** Labels are numbered section by section in the order of their definitions; the only failure is a label
      that is defined twice. */
  lemma {:induction false} DefinitionsDescribed(sections: seq<Section>, n: nat)
    requires n <= |sections|
    ensures match DefineSections(sections, n)
            case Ok(table) => Describes(table, sections, n, 0)
            case Err(e) => e.Duplicate? && DefinedTwice(sections, e.token)
  {
    if n > 0 {
      DefinitionsDescribed(sections, n - 1);
      if DefineSections(sections, n - 1).Ok? {
        var lines := sections[n - 1].lines;
        LinesDescribed(DefineSections(sections, n - 1).value, sections, n - 1, |lines|);
        assert lines[..|lines|] == lines;
        if DefineSections(sections, n).Ok? {
          SectionComplete(DefineSections(sections, n).value, sections, n - 1);
        }
      }
    }
  }

  lemma SectionComplete(table: Table, sections: seq<Section>, n: nat)
    requires n < |sections| && Describes(table, sections, n, |sections[n].lines|)
    ensures Describes(table, sections, n + 1, 0)
  {
    forall name | name in table ensures DefinedBefore(sections, name, n + 1, 0) {
      var i: nat, p: nat :| DefinedAt(sections, i, p, name) && Earlier(i, p, n, |sections[n].lines|);
      assert Earlier(i, p, n + 1, 0);
    }
    forall i: nat, p: nat, name | DefinedAt(sections, i, p, name) && Earlier(i, p, n + 1, 0)
      ensures Recorded(table, sections, i, p, name)
    {
      assert Earlier(i, p, n, |sections[n].lines|);
    }
  }

  /** A complete table. */
  ghost predicate IsTable(table: Table, sections: seq<Section>) { Describes(table, sections, |sections|, 0) }

  lemma Located(table: Table, sections: seq<Section>, name: string) returns (i: nat, p: nat)
    requires IsTable(table, sections) && name in table
    ensures DefinedAt(sections, i, p, name) && Recorded(table, sections, i, p, name)
  {
    assert DefinedBefore(sections, name, |sections|, 0);
    i, p :| DefinedAt(sections, i, p, name) && Earlier(i, p, |sections|, 0);
  }

  lemma InTable(table: Table, sections: seq<Section>, i: nat, p: nat, name: string)
    requires IsTable(table, sections) && DefinedAt(sections, i, p, name)
    ensures Recorded(table, sections, i, p, name)
  {
    assert Earlier(i, p, |sections|, 0);
  }

  /** No two labels share a section and an ordinal. */
  lemma AddressesDiffer(table: Table, sections: seq<Section>, a: string, b: string)
    requires IsTable(table, sections) && a in table && b in table
    requires table[a].owner == table[b].owner && table[a].ordinal == table[b].ordinal
    ensures a == b
  {
    var i, p := Located(table, sections, a);
    var j, q := Located(table, sections, b);
    if p < q {
      OrdinalGrows(sections[i].lines, p, q);
    } else if q < p {
      OrdinalGrows(sections[i].lines, q, p);
    }
  }

  /** The duplicate-label verdict is exact. */
  lemma DuplicatesAreFound(sections: seq<Section>)
    ensures DefineSections(sections, |sections|).Err? <==> exists name :: DefinedTwice(sections, name)
  {
    DefinitionsDescribed(sections, |sections|);
    var r := DefineSections(sections, |sections|);
    if r.Ok? {
      forall name ensures !DefinedTwice(sections, name) {
        TableMeansOnce(r.value, sections, name);
      }
    } else {
      assert DefinedTwice(sections, r.error.token);
    }
  }

  lemma TableMeansOnce(table: Table, sections: seq<Section>, name: string)
    requires IsTable(table, sections)
    ensures !DefinedTwice(sections, name)
  {
    forall i: nat, p: nat, j: nat, q: nat | DefinedAt(sections, i, p, name) && DefinedAt(sections, j, q, name)
      ensures (i, p) == (j, q)
    {
      InTable(table, sections, i, p, name);
      InTable(table, sections, j, q, name);
      if p < q {
        OrdinalGrows(sections[i].lines, p, q);
      } else if q < p {
        OrdinalGrows(sections[i].lines, q, p);
      }
    }
  }

  // ---------------------------------------------------------------- the texts of labels

  lemma {:induction false} EraseAllAvoids(s: string, c: char)
    requires c !in s && c !in ERASED_HASH
    ensures c !in EraseAll(s)
    decreases |s|
  {
    if s != [] {
      if HashTail(s, 0) {
        HashTailLength(s, 0);
        EraseAllAvoids(s[HASH_LENGTH..], c);
      } else {
        EraseAllAvoids(s[1..], c);
      }
    }
  }

  lemma MarkersAreHarmless(table: Table, sections: seq<Section>, here: nat, name: string)
    requires IsTable(table, sections) && ProperNames(sections) && name in table
    ensures Harmless(CanonText(table, here)(name))
  {
    var i, p := Located(table, sections, name);
    LocalMarkerHarmless(table[name].ordinal);
    KeyIsInert(sections[i].name, Occurrence(sections, i));
    RefMarkerHarmless(table[name].key, table[name].ordinal);
  }

  predicate NoBrackets(sections: seq<Section>) {
    forall i | 0 <= i < |sections| :: ']' !in sections[i].name
  }

  lemma TextsAreMarks(table: Table, sections: seq<Section>, here: nat, name: string)
    requires IsTable(table, sections) && name in table
    ensures StartsMark(CanonText(table, here)(name))
  {
    assert LocalMarker(table[name].ordinal)[..5] == "__LAB";
    assert RefMarker(table[name].key, table[name].ordinal)[..5] == "__REF";
  }

  lemma LocalIsMarker(n: nat)
    ensures IsMarker(LocalMarker(n))
  {
    assert LocalMarker(n)[..5] == "__LAB" && LocalMarker(n)[5..] == Print(n);
  }

  lemma RefIsMarker(key: string, n: nat)
    requires ']' !in key
    ensures IsMarker(RefMarker(key, n))
  {
    var t := RefMarker(key, n);
    NoCharIn(Print(n), ']');
    assert t[..6] == "__REF[" && t[6..|t| - 1] == key + ":" + Print(n);
  }

  lemma MarkersAreMarkers(table: Table, sections: seq<Section>, here: nat, name: string)
    requires IsTable(table, sections) && NoBrackets(sections) && name in table
    ensures IsMarker(CanonText(table, here)(name))
  {
    var i, p := Located(table, sections, name);
    LocalIsMarker(table[name].ordinal);
    EraseAllAvoids(sections[i].name, ']');
    NoCharIn(Print(Occurrence(sections, i)), ']');
    RefIsMarker(table[name].key, table[name].ordinal);
  }

  /** Two labels of two listings are defined at the same place: partner sections, same ordinal. */
  predicate SameAddress(F: seq<Section>, A: Table, a: string, G: seq<Section>, B: Table, b: string) {
    a in A && b in B && Partners(F, A[a].owner, G, B[b].owner) && A[a].ordinal == B[b].ordinal
  }

  /** Seen from partner sections, two labels get the same text exactly when their addresses agree. */
  lemma SameTextSameAddress(F: seq<Section>, A: Table, i: nat, a: string, G: seq<Section>, B: Table, j: nat, b: string)
    requires IsTable(A, F) && IsTable(B, G) && a in A && b in B && Partners(F, i, G, j)
    ensures CanonText(A, i)(a) == CanonText(B, j)(b) <==> SameAddress(F, A, a, G, B, b)
  {
    var f, p := Located(A, F, a);
    var g, q := Located(B, G, b);
    SameKeyArePartners(F, f, G, g);
    LocalIsNotRef(A[a].ordinal, B[b].key, B[b].ordinal);
    LocalIsNotRef(B[b].ordinal, A[a].key, A[a].ordinal);
    if Partners(F, f, G, g) {
      PartnersBothWays(F, i, f, G, j, g);
    }
    if CanonText(A, i)(a) == CanonText(B, j)(b) {
      if f == i {
        LocalMarkerInjective(A[a].ordinal, B[b].ordinal);
      } else {
        RefMarkerInjective(A[a].key, A[a].ordinal, B[b].key, B[b].ordinal);
      }
    }
  }
}
