/** Labels in section directives: the comparator copies attributes as they are written, so a renaming that
    reaches them is invisible exactly when it does not change what is copied. */
module AsmAttributes {
  import opened Protocol
  import opened AsmText
  import opened AsmContent
  import opened AsmFile
  import opened AsmLabels
  import opened AsmBodies
  import opened AsmRename
  import opened AsmHashes

  // ---------------------------------------------------------------- listings that differ in attributes only

  predicate SameButAttributes(F: seq<Section>, G: seq<Section>) {
    |F| == |G| && forall i | 0 <= i < |F| :: SectionsSameButAttributes(F[i], G[i])
  }

  predicate SectionsSameButAttributes(s: Section, t: Section) { s.name == t.name && s.lines == t.lines }

  /** What the output shows of a section's attributes. */
  function ShownAttributes(s: Section): string { NormalizeHashes(Strip(s.attrs)) }

  predicate SameShown(F: seq<Section>, G: seq<Section>)
    requires |F| == |G|
  {
    forall i | 0 <= i < |F| :: ShownAttributes(F[i]) == ShownAttributes(G[i])
  }

  lemma SameNumbering(F: seq<Section>, G: seq<Section>)
    requires SameButAttributes(F, G)
    ensures DefineSections(F, |F|) == DefineSections(G, |G|)
  {
    forall i | 0 <= i < |F| ensures SameDefinedLabels(F[i], G[i]) {
      assert SectionsSameButAttributes(F[i], G[i]);
    }
    SameDefinitions(F, G, |F|);
  }

  /** Contributions of the same section: the same complaint, or lines that agree behind the attributes. */
  predicate SameButHead(x: Part, y: Part) {
    && x.name == y.name
    && (x.lines.Err? || y.lines.Err? ==> x.lines == y.lines)
    && (x.lines.Ok? && y.lines.Ok? ==>
          |x.lines.value| == |y.lines.value| > 0 && x.lines.value[1..] == y.lines.value[1..])
  }

  predicate SameButHeads(xs: seq<Part>, ys: seq<Part>) {
    |xs| == |ys| && forall i | 0 <= i < |xs| :: SameButHead(xs[i], ys[i])
  }

  lemma PartsSameButHeads(F: seq<Section>, G: seq<Section>, table: Table)
    requires SameButAttributes(F, G)
    ensures SameButHeads(Parts(F, table), Parts(G, table))
  {
    forall i | 0 <= i < |F| ensures SameButHead(Parts(F, table)[i], Parts(G, table)[i]) {
      assert SectionsSameButAttributes(F[i], G[i]);
    }
  }

  lemma {:induction false} SameComplaint(xs: seq<Part>, ys: seq<Part>)
    requires SameButHeads(xs, ys)
    ensures Collected(xs).Ok? <==> Collected(ys).Ok?
    ensures Collected(xs).Err? ==> Collected(xs) == Collected(ys)
  {
    if xs != [] {
      SameComplaint(xs[..|xs| - 1], ys[..|ys| - 1]);
      assert SameButHead(xs[|xs| - 1], ys[|ys| - 1]);
    }
  }

  // ---------------------------------------------------------------- equal bodies have equal heads

  /** Sequences of contributions with the same lengths. */
  predicate SameShape(xs: seq<seq<string>>, ys: seq<seq<string>>) {
    |xs| == |ys| && forall i | 0 <= i < |xs| :: |xs[i]| == |ys[i]|
  }

  lemma {:induction false} ShapedFlattenInjective(xs: seq<seq<string>>, ys: seq<seq<string>>)
    requires SameShape(xs, ys) && Flatten(xs) == Flatten(ys)
    ensures xs == ys
  {
    if xs != [] {
      var n := |xs| - 1;
      SameLengths(xs[..n], ys[..n]);
      SplitAt(Flatten(xs[..n]), Last(xs), Flatten(ys[..n]), Last(ys));
      ShapedFlattenInjective(xs[..n], ys[..n]);
      assert xs == xs[..n] + [Last(xs)] && ys == ys[..n] + [Last(ys)];
    }
  }

  lemma {:induction false} SameLengths(xs: seq<seq<string>>, ys: seq<seq<string>>)
    requires SameShape(xs, ys)
    ensures |Flatten(xs)| == |Flatten(ys)|
  {
    if xs != [] {
      SameLengths(xs[..|xs| - 1], ys[..|ys| - 1]);
      assert |xs[|xs| - 1]| == |ys[|ys| - 1]|;
    }
  }

  lemma SplitAt<T>(a: seq<T>, b: seq<T>, c: seq<T>, d: seq<T>)
    requires a + b == c + d && |a| == |c|
    ensures a == c && b == d
  {
    assert a == (a + b)[..|a|] && b == (a + b)[|a|..];
  }

  lemma {:induction false} ChunksSameShape(xs: seq<Part>, ys: seq<Part>, name: string)
    requires SameButHeads(xs, ys)
    ensures SameShape(Chunks(xs, name), Chunks(ys, name))
  {
    if xs != [] {
      ChunksSameShape(xs[..|xs| - 1], ys[..|ys| - 1], name);
      assert SameButHead(xs[|xs| - 1], ys[|ys| - 1]);
    }
  }

  lemma EqualOutcomesShareBodies(F: seq<Section>, G: seq<Section>, i: nat)
    requires Accepted(F) && Accepted(G) && Outcome(F) == Outcome(G) && |F| == |G| && i < |F| && F[i].name == G[i].name
    ensures Flatten(Chunks(Parts(F, TableOf(F)), Canon(F[i]))) == Flatten(Chunks(Parts(G, TableOf(G)), Canon(F[i])))
  {
    var name := Canon(F[i]);
    AcceptedBody(F, name);
    AcceptedBody(G, name);
    assert Parts(F, TableOf(F))[i].name == name && Parts(G, TableOf(G))[i].name == name;
  }

  lemma SameNamesSameOccurrence(F: seq<Section>, G: seq<Section>, i: nat)
    requires SameButAttributes(F, G) && i < |F|
    ensures Occurrence(F, i) == Occurrence(G, i) && Canon(F[i]) == Canon(G[i])
  {
    forall k | 0 <= k < |F| ensures Canon(F[k]) == Canon(G[k]) {
      assert SectionsSameButAttributes(F[k], G[k]);
    }
    SameNamesSameKey(F, G, i);
  }

  lemma EqualOutcomesShowTheSame(F: seq<Section>, G: seq<Section>, i: nat)
    requires SameButAttributes(F, G) && Accepted(F) && Accepted(G) && Outcome(F) == Outcome(G) && i < |F|
    ensures ShownAttributes(F[i]) == ShownAttributes(G[i])
  {
    var t, name := TableOf(F), Canon(F[i]);
    SameNumbering(F, G);
    SameNamesSameOccurrence(F, G, i);
    assert SectionsSameButAttributes(F[i], G[i]);
    PartsSameButHeads(F, G, t);
    ChunksSameShape(Parts(F, t), Parts(G, t), name);
    EqualOutcomesShareBodies(F, G, i);
    ShapedFlattenInjective(Chunks(Parts(F, t), name), Chunks(Parts(G, t), name));
    AcceptedFacts(F);
    AcceptedFacts(G);
    ChunkAt(F, t, i);
    ChunkAt(G, t, i);
    SameHead(F, G, t, i);
  }

  lemma SameHead(F: seq<Section>, G: seq<Section>, table: Table, i: nat)
    requires i < |F| == |G| && Contribution(F, i, table).Ok? && Contribution(F, i, table) == Contribution(G, i, table)
    ensures ShownAttributes(F[i]) == ShownAttributes(G[i])
  {
    var f, g := ATTRS_MARK + ShownAttributes(F[i]), ATTRS_MARK + ShownAttributes(G[i]);
    assert f == Contribution(F, i, table).value[0] == g;
    assert f[|ATTRS_MARK|..] == g[|ATTRS_MARK|..];
  }

  lemma SameShownSameParts(F: seq<Section>, G: seq<Section>, table: Table)
    requires SameButAttributes(F, G) && SameShown(F, G)
    ensures Parts(F, table) == Parts(G, table)
  {
    forall i | 0 <= i < |F| ensures Parts(F, table)[i] == Parts(G, table)[i] {
      assert SectionsSameButAttributes(F[i], G[i]) && ShownAttributes(F[i]) == ShownAttributes(G[i]);
    }
  }

  /** The attributes in the output, exactly: listings that differ in attributes only get the same verdict, and
      the same output if and only if every section's stripped attributes agree outside instance hashes. */
  lemma OutcomeShowsAttributes(F: seq<Section>, G: seq<Section>)
    requires SameButAttributes(F, G)
    ensures Outcome(F).Err? ==> Outcome(G) == Outcome(F)
    ensures Accepted(F) ==> Accepted(G) && (Outcome(F) == Outcome(G) <==> SameShown(F, G))
  {
    SameNumbering(F, G);
    if DefineSections(F, |F|).Ok? {
      PartsSameButHeads(F, G, TableOf(F));
      SameComplaint(Parts(F, TableOf(F)), Parts(G, TableOf(G)));
    }
    if Accepted(F) {
      if SameShown(F, G) {
        SameShownSameParts(F, G, TableOf(F));
      }
      if Outcome(F) == Outcome(G) {
        forall i | 0 <= i < |F| ensures ShownAttributes(F[i]) == ShownAttributes(G[i]) {
          EqualOutcomesShowTheSame(F, G, i);
        }
      }
    }
  }

  // ---------------------------------------------------------------- renaming everywhere

  /** Renames the labels in lines and in section attributes alike. */
  function RenameEverywhere(sections: seq<Section>, rename: string -> string): seq<Section> {
    seq(|sections|, i requires 0 <= i < |sections| =>
      Section(sections[i].name, RenameLine(sections[i].attrs, rename), RenameLines(sections[i].lines, rename)))
  }

  /** Consistent renaming, exactly: a one-to-one renaming of local labels everywhere in a listing keeps the
      verdict, and keeps the output of an accepted listing if and only if it leaves the stripped attributes
      of every section as they were, outside instance hashes. */
  lemma RenamingIsInvisibleExactly(F: seq<Section>, rename: string -> string)
    requires Renames(rename) && OneToOne(rename)
    ensures Outcome(F).Err? ==> Outcome(RenameEverywhere(F, rename)) == RenameResult(Outcome(F), rename)
    ensures Accepted(F) ==>
              && Accepted(RenameEverywhere(F, rename))
              && (Outcome(RenameEverywhere(F, rename)) == Outcome(F) <==> SameShown(F, RenameEverywhere(F, rename)))
  {
    var G, H := RenameSections(F, rename), RenameEverywhere(F, rename);
    RenamingKeepsOutcome(F, rename);
    forall i | 0 <= i < |F| ensures SectionsSameButAttributes(G[i], H[i])
        && ShownAttributes(G[i]) == ShownAttributes(F[i]) {
    }
    OutcomeShowsAttributes(G, H);
  }

  // ---------------------------------------------------------------- a renaming that shows

  /** One section linked to a label of its own, in the way the directive's last argument links sections. */
  function Linked(target: string): seq<Section> { [Section("x", "," + target, [target + ":"])] }

  function Swap(name: string): string { if name == ".La" then ".Lb" else if name == ".Lb" then ".La" else name }

  lemma SwapRenames()
    ensures Renames(Swap) && OneToOne(Swap)
  {
    LabelNames();
  }

  lemma LinkedLine(target: string)
    requires IsLabelName(target)
    ensures Linked(target)[0].lines[0] == target + ":"
    ensures forall i: nat, p: nat, n :: DefinedAt(Linked(target), i, p, n) <==> i == 0 && p == 0 && n == target
    ensures forall i, p, k | LabelUsed(Linked(target), i, p, k) :: UsedLabel(Linked(target), i, p, k) == target
  {
    DefinitionItems(target);
  }

  lemma LinkedIsAccepted(target: string)
    requires IsLabelName(target)
    ensures Accepted(Linked(target))
  {
    LinkedLine(target);
    var F := Linked(target);
    assert DefinedAt(F, 0, 0, target);
    RejectedExactly(F);
  }

  lemma AttributeItems(target: string)
    requires IsLabelName(target)
    ensures Line("," + target) == [Ch(','), Label(target)]
  {
    LabelFirst(target, "");
    assert target + "" == target && Items("", 0) == [];
    FirstItem("," + target, 0);
    assert ("," + target)[1..] == target;
  }

  lemma AttributeRenamed()
    ensures RenameLine("," + ".La", Swap) == "," + ".Lb"
  {
    LabelNames();
    AttributeItems(".La");
    RenderCons(Ch(','), [Label(".La")], Swap);
    RenderCons(Label(".La"), [], Swap);
    assert [Ch(',')] + [Label(".La")] == [Ch(','), Label(".La")] && [Label(".La")] + [] == [Label(".La")];
  }

  lemma DefinitionRenamed()
    ensures RenameLine(".La" + ":", Swap) == ".Lb" + ":"
  {
    LabelNames();
    DefinitionItems(".La");
    RenderCons(Label(".La"), [Ch(':')], Swap);
    RenderCons(Ch(':'), [], Swap);
    assert [Label(".La")] + [Ch(':')] == [Label(".La"), Ch(':')] && [Ch(':')] + [] == [Ch(':')];
  }

  lemma LinkedRenamed()
    ensures RenameEverywhere(Linked(".La"), Swap) == Linked(".Lb")
  {
    AttributeRenamed();
    DefinitionRenamed();
    var line := ".La" + ":";
    assert RenameLines([line], Swap) == [RenameLine(line, Swap)];
  }

  lemma ShownAsWritten(target: string)
    requires IsLabelName(target) && '1' !in target
    ensures Strip("," + target) == "," + target && NormalizeHashes("," + target) == "," + target
  {
    var s := "," + target;
    assert SymbolPart(target[|target| - 1]);
    assert Last(s) == target[|target| - 1];
    assert forall i | 0 < i < |s| :: s[i] == target[i - 1] && SymbolPart(s[i]);
    NothingErased(s);
  }

  lemma {:induction false} NothingErased(s: string)
    requires '1' !in s && '"' !in s
    ensures NormalizeHashes(s) == s
  {
    if s != [] {
      NothingErased(s[1..]);
    }
  }

  /** A consistent renaming is not always invisible: this listing and its renamed twin are both accepted, say
      the same, and have different outputs. */
  lemma RenamingInAttributesShows()
    ensures Renames(Swap) && OneToOne(Swap) && RenameEverywhere(Linked(".La"), Swap) == Linked(".Lb")
    ensures Accepted(Linked(".La")) && Accepted(Linked(".Lb"))
    ensures Outcome(Linked(".La")) != Outcome(Linked(".Lb"))
  {
    LabelNames();
    SwapRenames();
    LinkedRenamed();
    LinkedIsAccepted(".La");
    LinkedIsAccepted(".Lb");
    ShownAsWritten(".La");
    ShownAsWritten(".Lb");
    assert ShownAttributes(Linked(".La")[0])[2] == 'L'
        && ShownAttributes(Linked(".La")[0])[3] != ShownAttributes(Linked(".Lb")[0])[3];
    RenamingIsInvisibleExactly(Linked(".La"), Swap);
  }
}
