/** Renaming local labels in the text of the lines of a listing's sections leaves its outcome unchanged, a
    rejection included. */
module AsmRename {
  import opened Protocol
  import opened Decimal
  import opened AsmText
  import opened AsmMarkers
  import opened AsmContent
  import opened AsmFile
  import opened AsmLabels
  import opened AsmBodies
  import opened AsmAlpha

  // ---------------------------------------------------------------- renaming in the text of a line

  /** A renaming of local labels to local labels. */
  ghost predicate Renames(rename: string -> string) {
    forall x {:trigger rename(x)} :: IsLabelName(x) ==> IsLabelName(rename(x))
  }

  function RenameLine(line: string, rename: string -> string): string { Render(Line(line), rename) }

  lemma {:induction false} CloseQuotePrefix(s: string, w: string)
    requires CloseQuote(s).Some? && |w| >= CloseQuote(s).value && w[..CloseQuote(s).value] == s[..CloseQuote(s).value]
    ensures CloseQuote(w) == CloseQuote(s)
  {
    var n := CloseQuote(s).value;
    assert w[0] == w[..n][0] == s[..n][0] == s[0];
    if s[0] != '"' {
      var step := if s[0] == '\\' then 2 else 1;
      assert w[step..][..n - step] == w[..n][step..] == s[..n][step..] == s[step..][..n - step];
      CloseQuotePrefix(s[step..], w[step..]);
    }
  }

  lemma {:induction false} SymbolPartsEscape(t: string)
    requires forall i | 0 <= i < |t| :: SymbolPart(t[i])
    ensures EscapeSafe(t)
  {
    if t != [] {
      SymbolPartsEscape(t[1..]);
    }
  }

  lemma LabelStartsDotted(t: string)
    requires IsLabelName(t)
    ensures t[0] == '.'
  {
    assert t[..2][0] == t[0];
  }

  lemma LabelsEscape(items: seq<Item>, text: string -> string)
    requires ProperLabels(items) && Renames(text)
    ensures AllQuoteSafe(items, text)
  {
    forall i | 0 <= i < |items| && items[i].Label? ensures QuoteSafe(text(items[i].name)) {
      SymbolPartsEscape(text(items[i].name));
      LabelStartsDotted(text(items[i].name));
    }
  }

  lemma {:induction false} SymbolLengthIs(t: string, r: string)
    requires (forall i | 0 <= i < |t| :: SymbolPart(t[i])) && (r == [] || !SymbolPart(r[0]))
    ensures SymbolLength(t + r) == |t|
  {
    if t == [] {
      assert t + r == r;
    } else {
      assert (t + r)[1..] == t[1..] + r;
      SymbolLengthIs(t[1..], r);
    }
  }

  lemma {:induction false} AllQuiet(s: string, rename: string -> string)
    ensures Render(Items(s, |s|), rename) == s
  {
    if s != [] {
      AllQuiet(s[1..], rename);
    }
  }

  /** An unclosed quote stays unclosed. */
  lemma StillUnclosed(s: string, rename: string -> string)
    requires Renames(rename) && CloseQuote(s).None?
    ensures CloseQuote(Render(Items(s, 0), rename)).None?
  {
    var items := Items(s, 0);
    ItemsLabels(s, 0);
    RenderItems(s, 0);
    LabelsEscape(items, x => x);
    LabelsEscape(items, rename);
    CloseRender(items, x => x);
    CloseRender(items, rename);
  }

  /** What the renamed text of items looks like from outside. */
  predicate Alike(s: string, quiet: nat, w: string)
    requires quiet <= |s|
  {
    quiet <= |w| && w[..quiet] == s[..quiet] && (|w| > quiet <==> |s| > quiet) && (|w| > quiet ==> w[quiet] == s[quiet])
  }

  lemma LineOfRenamed(line: string, rename: string -> string)
    requires Renames(rename)
    ensures Line(RenameLine(line, rename)) == MapLabels(Line(line), rename)
  {
    Relex(line, 0, rename);
  }

  /** Renaming in the text and splitting into items commute. */
  lemma {:induction false} Relex(s: string, quiet: nat, rename: string -> string)
    requires Renames(rename) && quiet <= |s|
    ensures Alike(s, quiet, Render(Items(s, quiet), rename))
    ensures Items(Render(Items(s, quiet), rename), quiet) == MapLabels(Items(s, quiet), rename)
    decreases s, 2
  {
    if s != [] {
      if quiet > 0 {
        RelexPlain(s, quiet, quiet - 1, rename);
      } else if s[0] == '"' && CloseQuote(s[1..]).Some? {
        var n := CloseQuote(s[1..]).value;
        RelexPlain(s, quiet, n, rename);
        CloseQuotePrefix(s[1..], Render(Items(s[1..], n), rename));
      } else if s[0] == '"' {
        RelexPlain(s, quiet, 0, rename);
        StillUnclosed(s[1..], rename);
      } else if s[0] == '#' {
        RelexPlain(s, quiet, |s| - 1, rename);
        AllQuiet(s[1..], rename);
      } else if SymbolStart(s[0]) {
        RelexSymbol(s, rename);
      } else {
        RelexPlain(s, quiet, 0, rename);
      }
    }
  }

  /** One plain character, then the rest. */
  lemma RelexPlain(s: string, quiet: nat, next: nat, rename: string -> string)
    requires Renames(rename) && quiet <= |s| && s != [] && next <= |s| - 1
    requires Items(s, quiet) == [Ch(s[0])] + Items(s[1..], next)
    requires quiet > 0 ==> next == quiet - 1
    ensures var w, rest := Render(Items(s, quiet), rename), Render(Items(s[1..], next), rename);
            && w == [s[0]] + rest && Alike(s[1..], next, rest) && Alike(s, quiet, w)
            && MapLabels(Items(s, quiet), rename) == [Ch(s[0])] + Items(rest, next)
    decreases s, 0
  {
    Relex(s[1..], next, rename);
    var w, rest := Render(Items(s, quiet), rename), Render(Items(s[1..], next), rename);
    assert Items(s, quiet)[1..] == Items(s[1..], next);
    assert w == [s[0]] + rest;
    if quiet > 0 {
      assert w[..quiet] == [s[0]] + rest[..next] == [s[0]] + s[1..][..next] == s[..quiet];
    }
  }

  lemma RelexSymbol(s: string, rename: string -> string)
    requires Renames(rename) && s != [] && SymbolStart(s[0])
    ensures Alike(s, 0, Render(Items(s, 0), rename))
    ensures Items(Render(Items(s, 0), rename), 0) == MapLabels(Items(s, 0), rename)
    decreases s, 1
  {
    var n := SymbolLength(s);
    FirstItem(s, 0);
    if IsLocal(s[..n]) {
      Relex(s[n..], 0, rename);
      Halves(s, n);
      RelexLabel(s[..n], s[n..], rename);
    } else {
      RelexPlain(s, 0, n - 1, rename);
      RelexOrdinary(s, rename);
    }
  }

  lemma RelexOrdinary(s: string, rename: string -> string)
    requires s != [] && SymbolStart(s[0]) && !IsLocal(s[..SymbolLength(s)])
    requires var n := SymbolLength(s); Alike(s[1..], n - 1, Render(Items(s[1..], n - 1), rename))
    requires Render(Items(s, 0), rename) == [s[0]] + Render(Items(s[1..], SymbolLength(s) - 1), rename)
    ensures var n, w := SymbolLength(s), Render(Items(s, 0), rename);
            Items(w, 0) == [Ch(s[0])] + Items(w[1..], n - 1)
  {
    var rest := Render(Items(s[1..], SymbolLength(s) - 1), rename);
    SameSymbol(s, rest);
    OrdinaryFirst([s[0]] + rest, SymbolLength(s));
  }

  lemma OrdinaryFirst(w: string, n: nat)
    requires w != [] && SymbolStart(w[0]) && SymbolLength(w) == n && !IsLocal(w[..n])
    ensures n > 0 && Items(w, 0) == [Ch(w[0])] + Items(w[1..], n - 1)
  {
    FirstItem(w, 0);
  }

  lemma SameSymbol(s: string, rest: string)
    requires s != [] && SymbolStart(s[0]) && Alike(s[1..], SymbolLength(s) - 1, rest)
    ensures var n := SymbolLength(s); SymbolLength([s[0]] + rest) == n && ([s[0]] + rest)[..n] == s[..n]
  {
    var n := SymbolLength(s);
    SameFront(s, rest, n);
    SymbolEnds([s[0]] + rest, n);
  }

  lemma SameFront(s: string, rest: string, n: nat)
    requires 0 < n <= |s| && Alike(s[1..], n - 1, rest)
    ensures var w := [s[0]] + rest; n <= |w| && w[..n] == s[..n] && (n < |w| <==> n < |s|) && (n < |w| ==> w[n] == s[n])
  {
    var w := [s[0]] + rest;
    assert w[..n] == [s[0]] + rest[..n - 1] && s[..n] == [s[0]] + s[1..][..n - 1];
    assert n < |w| ==> w[n] == rest[n - 1] && s[1..][n - 1] == s[n];
  }

  lemma SymbolEnds(w: string, n: nat)
    requires n <= |w| && (forall i | 0 <= i < n :: SymbolPart(w[..n][i])) && (n < |w| ==> !SymbolPart(w[n]))
    ensures SymbolLength(w) == n
  {
    SymbolLengthIs(w[..n], w[n..]);
    Halves(w, n);
  }

  lemma RelexLabel(name: string, r: string, rename: string -> string)
    requires Renames(rename) && IsLabelName(name) && (r == [] || !SymbolPart(r[0]))
    requires Alike(r, 0, Render(Items(r, 0), rename))
    requires Items(Render(Items(r, 0), rename), 0) == MapLabels(Items(r, 0), rename)
    ensures Alike(name + r, 0, Render(Items(name + r, 0), rename))
    ensures Items(Render(Items(name + r, 0), rename), 0) == MapLabels(Items(name + r, 0), rename)
  {
    var t, rest := rename(name), Render(Items(r, 0), rename);
    LabelFirst(name, r);
    LabelFirst(t, rest);
    LabelStartsDotted(name);
    LabelStartsDotted(t);
    assert Items(name + r, 0)[1..] == Items(r, 0);
    assert Render(Items(name + r, 0), rename) == t + rest;
  }

  lemma LabelFirst(t: string, r: string)
    requires IsLabelName(t) && (r == [] || !SymbolPart(r[0]))
    ensures Items(t + r, 0) == [Label(t)] + Items(r, 0)
  {
    LabelStartsDotted(t);
    SymbolLengthIs(t, r);
    assert (t + r)[..|t|] == t && (t + r)[|t|..] == r;
  }

  lemma LabelNames()
    ensures IsLabelName(".La") && IsLabelName(".Lb")
  {
    assert ".La"[..2] == ".L" && ".Lb"[..2] == ".L";
  }

  lemma DefinitionItems(name: string)
    requires IsLabelName(name)
    ensures Line(name + ":") == [Label(name), Ch(':')] && DefinedLabel(name + ":") == Some(name)
  {
    LabelFirst(name, ":");
    FirstItem(":", 0);
    assert Items([], 0) == [];
    LineDefines(name + ":");
  }

  // ---------------------------------------------------------------- renaming in a listing

  ghost predicate OneToOne(rename: string -> string) {
    forall x, y {:trigger rename(x), rename(y)} :: IsLabelName(x) && IsLabelName(y) && rename(x) == rename(y) ==> x == y
  }

  // ---------------------------------------------------------------- renamings of some labels

  /** The renaming takes these labels, and maybe no others, one to one to local labels. */
  ghost predicate RenamesOnly(labels: set<string>, rename: string -> string) {
    && (forall x {:trigger rename(x)} | x in labels :: IsLabelName(x) && IsLabelName(rename(x)))
    && (forall x, y {:trigger rename(x), rename(y)} | x in labels && y in labels :: rename(x) == rename(y) ==> x == y)
  }

  function Padding(n: nat): (t: string)
    ensures |t| == n && forall i | 0 <= i < n :: SymbolPart(t[i])
  {
    seq(n, i => 'a')
  }

  /** The other labels get names longer than all names given so far. */
  function Extended(labels: set<string>, n: nat, rename: string -> string): string -> string {
    x => if x in labels then rename(x) else x + Padding(n)
  }

  lemma {:induction false} LongerThanAll(labels: set<string>, rename: string -> string) returns (n: nat)
    ensures forall x {:trigger rename(x)} | x in labels :: |rename(x)| < n
    decreases |labels|
  {
    if labels == {} {
      n := 0;
    } else {
      var x :| x in labels;
      var k := LongerThanAll(labels - {x}, rename);
      n := k + |rename(x)| + 1;
      forall y | y in labels ensures |rename(y)| < n {
        assert y != x ==> y in labels - {x};
      }
    }
  }

  lemma PaddedName(x: string, n: nat)
    requires IsLabelName(x)
    ensures IsLabelName(x + Padding(n))
  {
    assert (x + Padding(n))[..2] == x[..2];
  }

  lemma PaddedApart(x: string, y: string, n: nat)
    requires x + Padding(n) == y + Padding(n)
    ensures x == y
  {
    assert (x + Padding(n))[..|x|] == x && (y + Padding(n))[..|y|] == y;
  }

  /** A one-to-one renaming of finitely many labels is part of one of all labels. */
  lemma RenamingExtends(labels: set<string>, rename: string -> string) returns (all: string -> string)
    requires RenamesOnly(labels, rename)
    ensures Renames(all) && OneToOne(all) && forall x | x in labels :: all(x) == rename(x)
  {
    var n := LongerThanAll(labels, rename);
    all := Extended(labels, n, rename);
    forall x | IsLabelName(x) ensures IsLabelName(all(x)) {
      PaddedName(x, n);
      assert x in labels ==> IsLabelName(rename(x));
    }
    forall x, y | IsLabelName(x) && IsLabelName(y) && all(x) == all(y) ensures x == y {
      ExtendedApart(labels, n, rename, x, y);
    }
  }

  lemma ExtendedApart(labels: set<string>, n: nat, rename: string -> string, x: string, y: string)
    requires RenamesOnly(labels, rename) && forall z {:trigger rename(z)} | z in labels :: |rename(z)| < n
    requires Extended(labels, n, rename)(x) == Extended(labels, n, rename)(y)
    ensures x == y
  {
    var f := Extended(labels, n, rename);
    ExtendedLength(labels, n, rename, x);
    ExtendedLength(labels, n, rename, y);
    assert |f(x)| == |f(y)|;
    if x in labels {
      assert f(x) == rename(x) && f(y) == rename(y);
    } else {
      PaddedApart(x, y, n);
    }
  }

  lemma ExtendedLength(labels: set<string>, n: nat, rename: string -> string, x: string)
    requires forall z {:trigger rename(z)} | z in labels :: |rename(z)| < n
    ensures |Extended(labels, n, rename)(x)| < n <==> x in labels
  {
    assert x in labels ==> |rename(x)| < n;
    assert |x + Padding(n)| >= n;
  }

  function LabelsOf(line: string): set<string> {
    set k | 0 <= k < |Line(line)| && Line(line)[k].Label? :: Line(line)[k].name
  }

  lemma {:induction false} RenderAgrees(items: seq<Item>, f: string -> string, g: string -> string)
    requires forall k | 0 <= k < |items| && items[k].Label? :: f(items[k].name) == g(items[k].name)
    ensures Render(items, f) == Render(items, g)
  {
    if items != [] {
      RenderAgrees(items[1..], f, g);
    }
  }

  lemma RenameAgrees(line: string, f: string -> string, g: string -> string)
    requires forall x | x in LabelsOf(line) :: f(x) == g(x)
    ensures RenameLine(line, f) == RenameLine(line, g)
  {
    forall k | 0 <= k < |Line(line)| && Line(line)[k].Label? ensures f(Line(line)[k].name) == g(Line(line)[k].name) {
      assert Line(line)[k].name in LabelsOf(line);
    }
    RenderAgrees(Line(line), f, g);
  }

  // ---------------------------------------------------------------- renaming sections

  function RenameLines(lines: seq<string>, rename: string -> string): seq<string> {
    seq(|lines|, p requires 0 <= p < |lines| => RenameLine(lines[p], rename))
  }

  function RenameSections(sections: seq<Section>, rename: string -> string): seq<Section> {
    seq(|sections|, i requires 0 <= i < |sections| => sections[i].(lines := RenameLines(sections[i].lines, rename)))
  }

  function RenameResult<T>(r: Result<T, LabelError>, rename: string -> string): Result<T, LabelError> {
    match r
    case Ok(v) => Ok(v)
    case Err(Duplicate(token)) => Err(Duplicate(rename(token)))
    case Err(Undefined(token)) => Err(Undefined(rename(token)))
  }

  lemma DefinedIsLabel(line: string)
    ensures DefinedLabel(line).Some? ==> IsLabelName(DefinedLabel(line).value)
  {
  }

  lemma DefinedRenamed(line: string, rename: string -> string)
    requires Renames(rename)
    ensures DefinedLabel(RenameLine(line, rename))
            == match DefinedLabel(line) case None => None case Some(name) => Some(rename(name))
  {
    LineDefines(line);
    LineDefines(RenameLine(line, rename));
    LineOfRenamed(line, rename);
    MapLabelsHead(Line(line), rename);
  }

  /** The same definitions under renamed labels. */
  ghost predicate TableRenamed(t: Table, u: Table, rename: string -> string) {
    && (forall x :: x in t ==> IsLabelName(x) && rename(x) in u && u[rename(x)] == t[x])
    && (forall x {:trigger rename(x)} :: IsLabelName(x) && rename(x) in u ==> x in t)
  }

  lemma TableRenamedGrows(t: Table, u: Table, rename: string -> string, token: string, d: Definition)
    requires Renames(rename) && OneToOne(rename) && TableRenamed(t, u, rename) && IsLabelName(token) && token !in t
    ensures TableRenamed(t[token := d], u[rename(token) := d], rename)
  {
  }

  lemma {:induction false} LinesRenamed(t: Table, u: Table, owner: nat, key: string, lines: seq<string>,
                                        rename: string -> string)
    requires Renames(rename) && OneToOne(rename) && TableRenamed(t, u, rename)
    ensures var r, r' := DefineLines(t, owner, key, lines), DefineLines(u, owner, key, RenameLines(lines, rename));
            if r.Err? then r' == RenameResult(r, rename)
            else r'.Ok? && r'.value.ordinal == r.value.ordinal && TableRenamed(r.value.table, r'.value.table, rename)
  {
    if lines != [] {
      var front := lines[..|lines| - 1];
      LinesRenamed(t, u, owner, key, front, rename);
      assert RenameLines(lines, rename)[..|lines| - 1] == RenameLines(front, rename);
      DefinedRenamed(Last(lines), rename);
      DefinedIsLabel(Last(lines));
      var r := DefineLines(t, owner, key, front);
      if r.Ok? && DefinedLabel(Last(lines)).Some? {
        var r' := DefineLines(u, owner, key, RenameLines(front, rename));
        var token := DefinedLabel(Last(lines)).value;
        if token !in r.value.table {
          TableRenamedGrows(r.value.table, r'.value.table, rename, token, Definition(owner, key, r.value.ordinal));
        }
      }
    }
  }

  /** Sections with the same canonical names have the same keys. */
  lemma {:induction false} SameNamesSameCount(F: seq<Section>, G: seq<Section>, n: nat, c: string)
    requires n <= |F| == |G| && forall i | 0 <= i < |F| :: Canon(F[i]) == Canon(G[i])
    ensures Count(F[..n], c) == Count(G[..n], c)
  {
    if n > 0 {
      SameNamesSameCount(F, G, n - 1, c);
      assert F[..n][..n - 1] == F[..n - 1] && G[..n][..n - 1] == G[..n - 1];
    }
  }

  lemma SameNamesSameKey(F: seq<Section>, G: seq<Section>, i: nat)
    requires i < |F| == |G| && forall i | 0 <= i < |F| :: Canon(F[i]) == Canon(G[i])
    ensures Key(F, i) == Key(G, i) && Occurrence(F, i) == Occurrence(G, i)
  {
    SameNamesSameCount(F, G, i, Canon(F[i]));
  }

  lemma {:induction false} SectionsRenamed(F: seq<Section>, n: nat, rename: string -> string)
    requires Renames(rename) && OneToOne(rename) && n <= |F|
    ensures var r, r' := DefineSections(F, n), DefineSections(RenameSections(F, rename), n);
            if r.Err? then r' == RenameResult(r, rename) else r'.Ok? && TableRenamed(r.value, r'.value, rename)
  {
    if n > 0 {
      var G := RenameSections(F, rename);
      SectionsRenamed(F, n - 1, rename);
      SameNamesSameKey(F, G, n - 1);
      if DefineSections(F, n - 1).Ok? {
        LinesRenamed(DefineSections(F, n - 1).value, DefineSections(G, n - 1).value, n - 1, Key(F, n - 1),
            F[n - 1].lines, rename);
      }
    }
  }

  // ---------------------------------------------------------------- the output of a renamed listing

  lemma {:induction false} UndefinedRenamed(items: seq<Item>, t: Table, u: Table, rename: string -> string)
    requires ProperLabels(items) && TableRenamed(t, u, rename)
    ensures UndefinedIn(MapLabels(items, rename), u)
            == match UndefinedIn(items, t) case None => None case Some(token) => Some(rename(token))
  {
    if items != [] {
      UndefinedRenamed(items[1..], t, u, rename);
      assert items[0].Label? ==> IsLabelName(items[0].name);
    }
  }

  lemma LineRenamed(line: string, here: nat, t: Table, u: Table, rename: string -> string)
    requires Renames(rename) && TableRenamed(t, u, rename)
    ensures UndefinedIn(Line(RenameLine(line, rename)), u)
            == match UndefinedIn(Line(line), t) case None => None case Some(token) => Some(rename(token))
    ensures UndefinedIn(Line(line), t).None? ==>
              Render(Line(RenameLine(line, rename)), CanonText(u, here)) == Render(Line(line), CanonText(t, here))
  {
    LineOfRenamed(line, rename);
    ItemsLabels(line, 0);
    UndefinedRenamed(Line(line), t, u, rename);
    if UndefinedIn(Line(line), t).None? {
      RenderSame(Line(line), CanonText(t, here), rename, CanonText(u, here));
    }
  }

  lemma {:induction false} CanonLabelsRenamed(lines: seq<string>, here: nat, t: Table, u: Table,
                                              rename: string -> string)
    requires Renames(rename) && TableRenamed(t, u, rename)
    ensures CanonLabels(RenameLines(lines, rename), here, u) == RenameResult(CanonLabels(lines, here, t), rename)
  {
    if lines != [] {
      CanonLabelsRenamed(lines[..|lines| - 1], here, t, u, rename);
      LineRenamed(Last(lines), here, t, u, rename);
      LastLabelsRenamed(lines, here, t, u, rename);
    }
  }

  lemma LastLabelsRenamed(lines: seq<string>, here: nat, t: Table, u: Table, rename: string -> string)
    requires lines != []
    requires var front := lines[..|lines| - 1];
             CanonLabels(RenameLines(front, rename), here, u) == RenameResult(CanonLabels(front, here, t), rename)
    requires UndefinedIn(Line(RenameLine(Last(lines), rename)), u)
             == match UndefinedIn(Line(Last(lines)), t) case None => None case Some(token) => Some(rename(token))
    requires UndefinedIn(Line(Last(lines)), t).None? ==>
               Render(Line(RenameLine(Last(lines), rename)), CanonText(u, here))
                   == Render(Line(Last(lines)), CanonText(t, here))
    ensures CanonLabels(RenameLines(lines, rename), here, u) == RenameResult(CanonLabels(lines, here, t), rename)
  {
    assert RenameLines(lines, rename)[..|lines| - 1] == RenameLines(lines[..|lines| - 1], rename);
  }

  predicate PartsRenamed(xs: seq<Part>, ys: seq<Part>, rename: string -> string) {
    |xs| == |ys| && forall i | 0 <= i < |xs| ::
          ys[i].name == xs[i].name && ys[i].lines == RenameResult(xs[i].lines, rename)
  }

  lemma {:induction false} CollectedRenamed(xs: seq<Part>, ys: seq<Part>, rename: string -> string)
    requires PartsRenamed(xs, ys, rename)
    ensures Collected(ys) == RenameResult(Collected(xs), rename)
  {
    if xs != [] {
      CollectedRenamed(xs[..|xs| - 1], ys[..|ys| - 1], rename);
      assert ys[|ys| - 1].name == xs[|xs| - 1].name && ys[|ys| - 1].lines == RenameResult(xs[|xs| - 1].lines, rename);
    }
  }

  lemma ContributionRenamed(F: seq<Section>, i: nat, t: Table, u: Table, rename: string -> string)
    requires Renames(rename) && TableRenamed(t, u, rename) && i < |F|
    ensures Contribution(RenameSections(F, rename), i, u) == RenameResult(Contribution(F, i, t), rename)
  {
    CanonLabelsRenamed(F[i].lines, i, t, u, rename);
  }

  /** Any one-to-one renaming of the local labels, outside strings and comments, leaves the outcome of a
      listing as it was: the same bodies if it was accepted, and the same complaint, about the renamed label,
      if it was not. */
  lemma RenamingKeepsOutcome(F: seq<Section>, rename: string -> string)
    requires Renames(rename) && OneToOne(rename)
    ensures Outcome(RenameSections(F, rename)) == RenameResult(Outcome(F), rename)
  {
    var G := RenameSections(F, rename);
    SectionsRenamed(F, |F|, rename);
    if DefineSections(F, |F|).Ok? {
      var t, u := DefineSections(F, |F|).value, DefineSections(G, |G|).value;
      var xs, ys := Parts(F, t), Parts(G, u);
      forall i | 0 <= i < |xs| ensures ys[i].name == xs[i].name && ys[i].lines == RenameResult(xs[i].lines, rename) {
        ContributionRenamed(F, i, t, u, rename);
      }
      CollectedRenamed(xs, ys, rename);
    }
  }
}
