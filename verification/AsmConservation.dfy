/** No silent loss: every content line of a trusted listing lands exactly once in the compared bodies. */
module AsmConservation {
  import opened Protocol
  import opened AsmText
  import opened AsmMarkers
  import opened AsmContent
  import opened AsmFile
  import opened AsmLabels
  import opened AsmBodies
  import opened AsmAlpha
  import opened AsmCompare

  // ---------------------------------------------------------------- all lines of all bodies

  /** The lines of all bodies, counted with multiplicity. */
  ghost function Total<K, V>(b: map<K, seq<V>>): multiset<V>
    decreases |b|
  {
    if b == map[] then multiset{} else var k :| k in b; multiset(b[k]) + Total(b - {k})
  }

  lemma TwoRemovals<K, V>(b: map<K, seq<V>>, k: K, l: K)
    ensures b - {k} - {l} == b - {l} - {k}
  {
  }

  lemma {:induction false} TotalWithout<K, V>(b: map<K, seq<V>>, k: K)
    requires k in b
    ensures Total(b) == multiset(b[k]) + Total(b - {k})
    decreases |b|
  {
    var l :| l in b && Total(b) == multiset(b[l]) + Total(b - {l});
    if l != k {
      TotalWithout(b - {l}, k);
      TotalWithout(b - {k}, l);
      TwoRemovals(b, k, l);
    }
  }

  lemma JoinedWithout(b: Bodies, name: string, more: seq<string>)
    ensures Joined(b, name, more) - {name} == b - {name}
  {
  }

  lemma TotalJoined(b: Bodies, name: string, more: seq<string>)
    ensures Total(Joined(b, name, more)) == Total(b) + multiset(more)
  {
    JoinedWithout(b, name, more);
    TotalWithout(Joined(b, name, more), name);
    if name in b {
      TotalWithout(b, name);
    } else {
      assert b - {name} == b;
    }
  }

  function AllLines(parts: seq<Part>): seq<string> {
    if parts == [] then []
    else AllLines(parts[..|parts| - 1]) + match Last(parts).lines case Ok(lines) => lines case Err(_) => []
  }

  /** Sorting contributions into bodies loses and invents nothing. */
  lemma {:induction false} CollectingConserves(parts: seq<Part>)
    requires Collected(parts).Ok?
    ensures var p := Collected(parts).value; Total(p.funcs) + Total(p.blocks) == multiset(AllLines(parts))
  {
    if parts != [] {
      CollectingConserves(parts[..|parts| - 1]);
      var before := Collected(parts[..|parts| - 1]).value;
      var more := Last(parts).lines.value;
      TotalJoined(before.funcs, Last(parts).name, more);
      TotalJoined(before.blocks, Last(parts).name, more);
    }
  }

  // ---------------------------------------------------------------- lines of a listing

  function SectionForms(sections: seq<Section>, table: Table, i: nat): (r: seq<string>)
    requires i < |sections|
    ensures |r| == |sections[i].lines|
  {
    seq(|sections[i].lines|, p requires 0 <= p < |sections[i].lines| => CanonicalLine(sections[i].lines[p], table, i))
  }

  /** The canonical forms of all attributed lines, section by section. */
  function Forms(sections: seq<Section>, table: Table): (r: seq<seq<string>>)
    ensures |r| == |sections|
  {
    seq(|sections|, i requires 0 <= i < |sections| => SectionForms(sections, table, i))
  }

  function AttrLines(sections: seq<Section>): (r: seq<string>)
    ensures |r| == |sections|
  {
    seq(|sections|, i requires 0 <= i < |sections| => ATTRS_MARK + NormalizeHashes(Strip(sections[i].attrs)))
  }

  lemma {:induction false} FormsPerLine(sections: seq<Section>, forms: seq<seq<string>>)
    requires |forms| == |sections| && forall i | 0 <= i < |sections| :: |forms[i]| == |sections[i].lines|
    ensures |Flatten(forms)| == |LinesOf(sections)|
  {
    if sections != [] {
      FormsPerLine(sections[..|sections| - 1], forms[..|forms| - 1]);
    }
  }

  lemma OneMoreContribution(lines: seq<string>, attrs: seq<string>, forms: seq<string>, attr: string, more: seq<string>)
    requires multiset(lines) == multiset(attrs) + multiset(forms)
    ensures multiset(lines + ([attr] + more)) == multiset(attrs + [attr]) + multiset(forms + more)
  {
  }

  /** Contributions made of an attribute line and further lines add up to both, taken apart. */
  lemma {:induction false} Interleaved(parts: seq<Part>, attrs: seq<string>, forms: seq<seq<string>>)
    requires |attrs| == |forms| == |parts|
    requires forall i | 0 <= i < |parts| :: parts[i].lines == Ok([attrs[i]] + forms[i])
    ensures multiset(AllLines(parts)) == multiset(attrs) + multiset(Flatten(forms))
  {
    if parts != [] {
      var n := |parts| - 1;
      Interleaved(parts[..n], attrs[..n], forms[..n]);
      OneMoreContribution(AllLines(parts[..n]), attrs[..n], Flatten(forms[..n]), attrs[n], forms[n]);
      assert attrs == attrs[..n] + [attrs[n]];
      assert Last(parts).lines == Ok([attrs[n]] + forms[n]) && Last(forms) == forms[n];
    }
  }

  lemma AcceptedConserves(sections: seq<Section>)
    requires Accepted(sections)
    ensures var p, forms := Outcome(sections).value, Forms(sections, TableOf(sections));
            && Total(p.funcs) + Total(p.blocks) == multiset(AttrLines(sections)) + multiset(Flatten(forms))
            && |Flatten(forms)| == |LinesOf(sections)|
  {
    var table := TableOf(sections);
    var parts, attrs, forms := Parts(sections, table), AttrLines(sections), Forms(sections, table);
    forall i | 0 <= i < |parts| ensures parts[i].lines == Ok([attrs[i]] + forms[i]) {
      AcceptedLabels(sections, i);
      assert Chunk(sections, table, i) == [attrs[i]] + forms[i];
    }
    Interleaved(parts, attrs, forms);
    FormsPerLine(sections, forms);
    CollectingConserves(parts);
  }

  /** In a trusted listing every content line is attributed to a section, in order, and the compared bodies
      hold exactly one line for each of them and one attribute line for each section directive. */
  lemma EveryLineIsCompared(file: File)
    requires TrustedFile(file)
    ensures LinesOf(SectionsOf(file)) == ContentLines(file) && Starts(SectionsOf(file)) == SectionStarts(file)
    ensures var sections := SectionsOf(file); var forms := Flatten(Forms(sections, TableOf(sections)));
            && |forms| == |ContentLines(file)| && Parsing(file).Ok?
            && Total(Parsing(file).value.funcs) + Total(Parsing(file).value.blocks)
               == multiset(AttrLines(sections)) + multiset(forms)
  {
    NoLineIsLost(file);
    AcceptedConserves(SectionsOf(file));
  }
}
