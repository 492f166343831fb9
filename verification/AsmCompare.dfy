/** Comparing two directories of listings: what each exit code says. */
module AsmCompare {
  import opened Protocol
  import opened Permutations
  import opened AsmText
  import opened AsmMarkers
  import opened AsmContent
  import opened AsmFile
  import opened AsmLabels
  import opened AsmBodies
  import opened AsmAlpha
  import opened AsmGather

  /** A listing as its lines. */
  type File = seq<string>

  datatype Distrust = NoFiles | BadLabels(error: LabelError) | NothingParsed | Unattributed

  datatype Loaded = Loaded(funcs: Gathered, blocks: Gathered)

  function Parsings(files: seq<File>): (r: Results)
    ensures |r| == |files|
  {
    seq(|files|, i requires 0 <= i < |files| => Parsing(files[i]))
  }

  function LoadResults(ps: Results): Result<Loaded, Distrust> {
    if ps == [] then Err(NoFiles)
    else if FirstError(ps).Some? then Err(BadLabels(FirstError(ps).value))
    else if CountNonempty(ps) == 0 then Err(NothingParsed)
    else if CountUnattributed(ps) > 0 then Err(Unattributed)
    else Ok(Loaded(GatherAll(ps, true), GatherAll(ps, false)))
  }

  method LoadDirectory(files: seq<File>) returns (r: Result<Loaded, Distrust>)
    ensures r == LoadResults(Parsings(files))
  {
    if files == [] {
      return Err(NoFiles);
    }
    ghost var ps := Parsings(files);
    var funcs: Gathered, blocks: Gathered, parsed, unattributed := map[], map[], 0, 0;
    for i := 0 to |files|
      invariant FirstError(ps[..i]).None? && parsed == CountNonempty(ps[..i])
                && unattributed == CountUnattributed(ps[..i])
      invariant funcs == GatherAll(ps[..i], true) && blocks == GatherAll(ps[..i], false)
    {
      var file := ParseFile(files[i]);
      assert ps[..i + 1][..i] == ps[..i] && Last(ps[..i + 1]) == file;
      if file.Err? {
        FirstErrorStays(ps, i + 1);
        return Err(BadLabels(file.error));
      }
      if file.value.untrusted {
        unattributed := unattributed + 1;
      }
      if file.value.funcs != map[] || file.value.blocks != map[] {
        parsed := parsed + 1;
      }
      funcs := GatherBodies(funcs, file.value.funcs);
      blocks := GatherBodies(blocks, file.value.blocks);
    }
    assert ps[..|files|] == ps;
    if parsed == 0 {
      return Err(NothingParsed);
    }
    if unattributed > 0 {
      return Err(Unattributed);
    }
    r := Ok(Loaded(funcs, blocks));
  }

  function ExitCode(a: Result<Loaded, Distrust>, b: Result<Loaded, Distrust>): nat {
    if a.Err? || b.Err? then 2
    else if Differences(a.value.funcs, b.value.funcs) + Differences(a.value.blocks, b.value.blocks) == 0 then 0
    else 1
  }

  function Verdict(baseline: seq<File>, candidate: seq<File>): nat {
    ExitCode(LoadResults(Parsings(baseline)), LoadResults(Parsings(candidate)))
  }

  method Compare(baseline: seq<File>, candidate: seq<File>) returns (code: nat)
    ensures code == Verdict(baseline, candidate)
  {
    var a := LoadDirectory(baseline);
    if a.Err? {
      return 2;
    }
    var b := LoadDirectory(candidate);
    if b.Err? {
      return 2;
    }
    var functions, functionGroups := DiffSets(a.value.funcs, b.value.funcs);
    var data, dataGroups := DiffSets(a.value.blocks, b.value.blocks);
    code := if functions + data == 0 then 0 else 1;
  }

  // ---------------------------------------------------------------- in terms of parse results

  predicate TrustedResults(ps: Results) {
    (forall i | 0 <= i < |ps| :: Attributed(ps[i])) && exists i :: 0 <= i < |ps| && Nonempty(ps[i])
  }

  /** Results that agree wherever a listing was accepted. */
  predicate AgreeWhenOk(ps: Results, qs: Results) {
    |ps| == |qs| && forall i | 0 <= i < |ps| :: ps[i].Err? == qs[i].Err? && (ps[i].Ok? ==> ps[i] == qs[i])
  }

  lemma LoadingAgrees(ps: Results, qs: Results)
    requires AgreeWhenOk(ps, qs)
    ensures LoadResults(ps).Err? == LoadResults(qs).Err?
    ensures LoadResults(ps).Ok? ==> LoadResults(ps) == LoadResults(qs)
  {
    NoErrors(ps);
    NoErrors(qs);
    if FirstError(ps).None? {
      assert ps == qs;
    }
  }

  lemma LoadedIffTrusted(ps: Results)
    ensures LoadResults(ps).Ok? <==> TrustedResults(ps)
  {
    NoErrors(ps);
    NothingParsedExactly(ps);
    AllAttributedExactly(ps);
  }

  ghost predicate SameSide(ps: Results, qs: Results, text: bool) {
    forall name :: AllBodies(ps, text, name) == AllBodies(qs, text, name)
  }

  ghost predicate SameBodies(ps: Results, qs: Results) {
    SameSide(ps, qs, true) && SameSide(ps, qs, false)
  }

  /** The gathered map holds exactly the bodies of the listings. */
  ghost predicate Reflects(g: Gathered, ps: Results, text: bool) {
    && (forall name :: BodiesAt(g, name) == AllBodies(ps, text, name))
    && (forall name :: name in g ==> g[name] != multiset{})
  }

  lemma LoadedSides(ps: Results, text: bool)
    requires LoadResults(ps).Ok?
    ensures Reflects(if text then LoadResults(ps).value.funcs else LoadResults(ps).value.blocks, ps, text)
  {
    forall name
      ensures BodiesAt(GatherAll(ps, text), name) == AllBodies(ps, text, name)
      ensures name in GatherAll(ps, text) ==> GatherAll(ps, text)[name] != multiset{}
    {
      GatheredBodies(ps, text, name);
    }
  }

  lemma SameSides(g: Gathered, h: Gathered, ps: Results, qs: Results, text: bool)
    requires Reflects(g, ps, text) && Reflects(h, qs, text)
    ensures Differences(g, h) == 0 <==> SameSide(ps, qs, text)
  {
    NoDifferences(g, h);
    if SameSide(ps, qs, text) {
      forall name ensures BodiesAt(g, name) == BodiesAt(h, name) {
        assert AllBodies(ps, text, name) == AllBodies(qs, text, name);
      }
      EqualGathered(g, h);
    }
    if g == h {
      forall name ensures AllBodies(ps, text, name) == AllBodies(qs, text, name) {
        assert BodiesAt(g, name) == BodiesAt(h, name);
      }
    }
  }

  lemma ExitCodeExactly(ps: Results, qs: Results)
    ensures var code := ExitCode(LoadResults(ps), LoadResults(qs));
            && (code == 2 <==> !(TrustedResults(ps) && TrustedResults(qs)))
            && (code == 0 <==> TrustedResults(ps) && TrustedResults(qs) && SameBodies(ps, qs))
            && code <= 2
  {
    LoadedIffTrusted(ps);
    LoadedIffTrusted(qs);
    if TrustedResults(ps) && TrustedResults(qs) {
      TrustedExitCode(ps, qs);
    }
  }

  lemma TrustedExitCode(ps: Results, qs: Results)
    requires LoadResults(ps).Ok? && LoadResults(qs).Ok?
    ensures ExitCode(LoadResults(ps), LoadResults(qs)) == if SameBodies(ps, qs) then 0 else 1
  {
    var l, m := LoadResults(ps).value, LoadResults(qs).value;
    LoadedSides(ps, true);
    LoadedSides(ps, false);
    LoadedSides(qs, true);
    LoadedSides(qs, false);
    SameSides(l.funcs, m.funcs, ps, qs, true);
    SameSides(l.blocks, m.blocks, ps, qs, false);
  }

  lemma TrustUnordered(ps: Results, qs: Results)
    requires multiset(ps) == multiset(qs) && TrustedResults(ps)
    ensures TrustedResults(qs)
  {
    forall i | 0 <= i < |qs| ensures Attributed(qs[i]) {
      assert qs[i] in multiset(qs);
      var k :| 0 <= k < |ps| && ps[k] == qs[i];
    }
    var i :| 0 <= i < |ps| && Nonempty(ps[i]);
    assert ps[i] in multiset(ps);
    var k :| 0 <= k < |qs| && qs[k] == ps[i];
  }

  // ---------------------------------------------------------------- in terms of listings

  function SectionsOf(file: File): seq<Section> { Sections(ScanFile(file)) }

  /** A listing all of whose content is attributed to a section, and whose labels are in order. */
  ghost predicate TrustedFile(file: File) { Accepted(SectionsOf(file)) && !ScanFile(file).untrusted }

  /** A directory that can be compared. */
  ghost predicate Trusted(files: seq<File>) {
    && (forall i | 0 <= i < |files| :: TrustedFile(files[i]))
    && exists i :: 0 <= i < |files| && SectionsOf(files[i]) != []
  }

  lemma ParsedFile(file: File)
    ensures TrustedFile(file) <==> Attributed(Parsing(file))
    ensures TrustedFile(file) ==> (Nonempty(Parsing(file)) <==> SectionsOf(file) != [])
  {
    HasSections(file);
  }

  /** A directory is refused (exit 2) exactly when no listing has a section, or some listing has content
      outside sections, a label defined twice, or a label that is not defined. */
  lemma RefusedExactly(files: seq<File>)
    ensures LoadResults(Parsings(files)).Err? <==> !Trusted(files)
  {
    var ps := Parsings(files);
    LoadedIffTrusted(ps);
    forall i | 0 <= i < |files|
      ensures TrustedFile(files[i]) <==> Attributed(ps[i])
      ensures TrustedFile(files[i]) ==> (Nonempty(ps[i]) <==> SectionsOf(files[i]) != [])
    {
      ParsedFile(files[i]);
    }
    if Trusted(files) {
      var i :| 0 <= i < |files| && SectionsOf(files[i]) != [];
      assert TrustedFile(files[i]) && Nonempty(ps[i]);
    }
    if TrustedResults(ps) {
      var i :| 0 <= i < |ps| && Nonempty(ps[i]);
      assert Attributed(ps[i]) && SectionsOf(files[i]) != [];
    }
  }

  lemma {:induction false} FirstErrorIs(ps: Results, i: nat)
    requires i < |ps| && ps[i].Err? && forall k | 0 <= k < i :: ps[k].Ok?
    ensures FirstError(ps) == Some(ps[i].error)
    decreases |ps|
  {
    if i == |ps| - 1 {
      NoErrors(ps[..i]);
    } else {
      FirstErrorIs(ps[..|ps| - 1], i);
    }
  }

  /** Why a directory is refused, the first of these that applies: it has no files; a listing's labels are
      wrong, and it is the first such listing's complaint; no listing has a section; or some content has none. */
  lemma DistrustExactly(files: seq<File>, i: nat)
    ensures LoadResults(Parsings(files)) == Err(NoFiles) <==> files == []
    ensures i < |files| && !Accepted(SectionsOf(files[i]))
            && (forall k | 0 <= k < i :: Accepted(SectionsOf(files[k]))) ==>
              LoadResults(Parsings(files)) == Err(BadLabels(Outcome(SectionsOf(files[i])).error))
    ensures LoadResults(Parsings(files)) == Err(NothingParsed) <==>
              && files != [] && (forall k | 0 <= k < |files| :: Accepted(SectionsOf(files[k])))
              && forall k | 0 <= k < |files| :: SectionsOf(files[k]) == []
    ensures LoadResults(Parsings(files)) == Err(Unattributed) <==>
              && (forall k | 0 <= k < |files| :: Accepted(SectionsOf(files[k])))
              && (exists k :: 0 <= k < |files| && SectionsOf(files[k]) != [])
              && exists k :: 0 <= k < |files| && ScanFile(files[k]).untrusted
  {
    var ps := Parsings(files);
    NoErrors(ps);
    NothingParsedExactly(ps);
    AllAttributedExactly(ps);
    forall k | 0 <= k < |files|
      ensures ps[k].Ok? <==> Accepted(SectionsOf(files[k]))
      ensures ps[k].Ok? ==> (Nonempty(ps[k]) <==> SectionsOf(files[k]) != [])
      ensures ps[k].Ok? ==> (Attributed(ps[k]) <==> !ScanFile(files[k]).untrusted)
    {
      HasSections(files[k]);
    }
    if i < |files| && !Accepted(SectionsOf(files[i])) && forall k | 0 <= k < i :: Accepted(SectionsOf(files[k])) {
      FirstErrorIs(ps, i);
    }
  }

  lemma HasSections(file: File)
    ensures Accepted(SectionsOf(file)) ==> (Nonempty(Parsing(file)) <==> SectionsOf(file) != [])
  {
    var sections := SectionsOf(file);
    if Accepted(sections) {
      var p := Parsing(file).value;
      if sections != [] {
        ChunkOf(sections, 0);
        OutputBody(sections, Canon(sections[0]));
      } else {
        forall name ensures name !in p.funcs && name !in p.blocks {
          OutputBody(sections, name);
        }
      }
    }
  }

  /** Exit 0 says exactly that both directories are trusted and have, for every name, the same bodies counted
      with multiplicity, among functions and among data. The report's categories play no part in it. */
  lemma IdenticalExactly(baseline: seq<File>, candidate: seq<File>)
    ensures Verdict(baseline, candidate) == 2 <==> !(Trusted(baseline) && Trusted(candidate))
    ensures Verdict(baseline, candidate) == 0 <==>
              Trusted(baseline) && Trusted(candidate) && SameBodies(Parsings(baseline), Parsings(candidate))
  {
    RefusedExactly(baseline);
    RefusedExactly(candidate);
    LoadedIffTrusted(Parsings(baseline));
    LoadedIffTrusted(Parsings(candidate));
    ExitCodeExactly(Parsings(baseline), Parsings(candidate));
  }

  lemma ParsingsWithout(files: seq<File>, i: nat, rest: seq<File>)
    requires i < |files| && rest == files[..i] + files[i + 1..]
    ensures multiset(Parsings(files)) == multiset(Parsings(rest)) + multiset{Parsing(files[i])}
  {
    Without(Parsings(files), i);
    assert Parsings(files)[..i] + Parsings(files)[i + 1..] == Parsings(rest);
  }

  lemma {:induction false} ParsingsUnordered(a: seq<File>, b: seq<File>)
    requires multiset(a) == multiset(b)
    ensures multiset(Parsings(a)) == multiset(Parsings(b))
    decreases |a|
  {
    if a == [] {
      assert |multiset(b)| == 0;
    } else {
      var i := TakeOut(a, b);
      ParsingsUnordered(a[1..], b[..i] + b[i + 1..]);
      ParsingsWithout(a, 0, a[1..]);
      ParsingsWithout(b, i, b[..i] + b[i + 1..]);
    }
  }

  /** The order in which a directory lists its files makes no difference to the exit code. */
  lemma VerdictUnordered(a: seq<File>, a': seq<File>, b: seq<File>, b': seq<File>)
    requires multiset(a) == multiset(a') && multiset(b) == multiset(b')
    ensures Verdict(a, b) == Verdict(a', b')
  {
    ParsingsUnordered(a, a');
    ParsingsUnordered(b, b');
    ResultsUnordered(Parsings(a), Parsings(a'), Parsings(b), Parsings(b'));
  }

  lemma ResultsUnordered(a: Results, a': Results,
                         b: Results, b': Results)
    requires multiset(a) == multiset(a') && multiset(b) == multiset(b')
    ensures ExitCode(LoadResults(a), LoadResults(b)) == ExitCode(LoadResults(a'), LoadResults(b'))
  {
    ExitCodeExactly(a, b);
    ExitCodeExactly(a', b');
    SameTrust(a, a');
    SameTrust(b, b');
    SidesUnordered(a, a', b, b', true);
    SidesUnordered(a, a', b, b', false);
  }

  lemma SidesUnordered(a: Results, a': Results,
                       b: Results, b': Results, text: bool)
    requires multiset(a) == multiset(a') && multiset(b) == multiset(b')
    ensures SameSide(a, b, text) <==> SameSide(a', b', text)
  {
    forall name
      ensures AllBodies(a, text, name) == AllBodies(a', text, name)
              && AllBodies(b, text, name) == AllBodies(b', text, name)
    {
      BodiesUnordered(a, a', text, name);
      BodiesUnordered(b, b', text, name);
    }
  }

  lemma SameTrust(a: Results, b: Results)
    requires multiset(a) == multiset(b)
    ensures TrustedResults(a) <==> TrustedResults(b)
  {
    if TrustedResults(a) {
      TrustUnordered(a, b);
    }
    if TrustedResults(b) {
      TrustUnordered(b, a);
    }
  }

  // ---------------------------------------------------------------- one listing on each side

  lemma OneFileBodies(p: Result<Parsed, LabelError>, text: bool, name: string)
    ensures AllBodies([p], text, name) == BodyAt(Side(p, text), name)
  {
    assert [p][..0] == [];
  }

  lemma SameBodyMaps(a: Bodies, b: Bodies)
    requires forall name :: BodyAt(a, name) == BodyAt(b, name)
    ensures a == b
  {
    forall name
      ensures name in a <==> name in b
      ensures name in a ==> a[name] == b[name]
    {
      assert BodyAt(a, name) == BodyAt(b, name);
      if name in a {
        assert a[name] in BodyAt(a, name);
        assert a[name] in BodyAt(b, name);
      }
      if name in b {
        assert b[name] in BodyAt(b, name);
        assert b[name] in BodyAt(a, name);
      }
    }
  }

  lemma SameBodiesSameParsed(p: Parsed, q: Parsed)
    requires SameBodies([Ok(p)], [Ok(q)]) && p.untrusted == q.untrusted
    ensures p == q
  {
    forall name ensures BodyAt(p.funcs, name) == BodyAt(q.funcs, name)
        && BodyAt(p.blocks, name) == BodyAt(q.blocks, name) {
      OneFileBodies(Ok(p), true, name);
      OneFileBodies(Ok(q), true, name);
      OneFileBodies(Ok(p), false, name);
      OneFileBodies(Ok(q), false, name);
      assert AllBodies([Ok(p)], true, name) == AllBodies([Ok(q)], true, name);
      assert AllBodies([Ok(p)], false, name) == AllBodies([Ok(q)], false, name);
    }
    SameBodyMaps(p.funcs, q.funcs);
    SameBodyMaps(p.blocks, q.blocks);
  }

  lemma OneFileOutcome(f: File)
    requires Trusted([f])
    ensures Accepted(SectionsOf(f)) && Parsings([f]) == [Ok(Parsing(f).value)]
    ensures Parsing(f).value == Outcome(SectionsOf(f)).value.(untrusted := false)
    ensures !Outcome(SectionsOf(f)).value.untrusted
  {
    assert TrustedFile([f][0]);
    AcceptedBody(SectionsOf(f), "");
  }

  /** For one listing on each side that spells none of the comparator's marks and whose section names make
      no reference ambiguous, exit 0 says exactly that they are alpha-equivalent: equal up to a one-to-one
      renaming of local labels and the digits of instance hashes. */
  lemma SingleFileVerdict(f: File, g: File)
    requires Trusted([f]) && Trusted([g])
    requires Unmarked(SectionsOf(f)) && Unmarked(SectionsOf(g)) 
    requires Unambiguous(SectionsOf(f)) && Unambiguous(SectionsOf(g))
    ensures Verdict([f], [g]) == 0 <==> AlphaEquivalent(SectionsOf(f), SectionsOf(g))
  {
    ScannedNames(f);
    ScannedNames(g);
    IdenticalExactly([f], [g]);
    OneFileOutcome(f);
    OneFileOutcome(g);
    OutputDecidesAlphaEquivalence(SectionsOf(f), SectionsOf(g));
    if Verdict([f], [g]) == 0 {
      SameBodiesSameParsed(Parsing(f).value, Parsing(g).value);
    }
  }
}
