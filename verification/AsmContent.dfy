/** What a source line says once its instance hashes are erased, and which facts about the line as written
    survive the erasing. */
module AsmContent {
  import opened Protocol
  import opened Decimal
  import opened AsmText
  import opened AsmMarkers

  // ---------------------------------------------------------------- labels and their neighbours

  /** No label directly follows a character that could start a symbol. */
  predicate Unglued(items: seq<Item>) {
    items == []
    || ((|items| > 1 && items[1].Label? ==> items[0].Ch? && !SymbolStart(items[0].c)) && Unglued(items[1..]))
  }

  lemma {:induction false} CloseQuoteEnds(s: string)
    requires CloseQuote(s).Some?
    ensures s[CloseQuote(s).value - 1] == '"'
  {
    if s[0] != '"' {
      CloseQuoteEnds(s[if s[0] == '\\' then 2 else 1..]);
    }
  }

  /** A recognised region ends where no symbol runs on. */
  predicate EndsCleanly(s: string, quiet: nat)
    requires quiet <= |s|
  {
    0 < quiet < |s| && SymbolStart(s[quiet - 1]) ==> !SymbolPart(s[quiet])
  }

  lemma LabelNeedsStart(s: string, quiet: nat)
    requires quiet <= |s| && s != []
    ensures Items(s, quiet) != []
    ensures Items(s, quiet)[0].Label? ==> quiet == 0 && SymbolStart(s[0])
    ensures Items(s, quiet)[0].Ch? ==> Items(s, quiet)[0].c == s[0]
  {
  }

  lemma {:induction false} ItemsUnglued(s: string, quiet: nat)
    requires quiet <= |s| && EndsCleanly(s, quiet)
    ensures Unglued(Items(s, quiet))
    decreases s, 1
  {
    if s != [] {
      if s[1..] != [] {
        LabelNeedsStart(s[1..], if quiet > 0 then quiet - 1 else 0);
      }
      if quiet > 0 {
        ItemsUnglued(s[1..], quiet - 1);
      } else if s[0] == '"' && CloseQuote(s[1..]).Some? {
        CloseQuoteEnds(s[1..]);
        ItemsUnglued(s[1..], CloseQuote(s[1..]).value);
      } else if s[0] == '#' {
        ItemsUnglued(s[1..], |s| - 1);
      } else if SymbolStart(s[0]) {
        SymbolUnglued(s);
      } else {
        ItemsUnglued(s[1..], 0);
      }
    }
  }

  lemma SymbolUnglued(s: string)
    requires s != [] && SymbolStart(s[0])
    ensures Unglued(Items(s, 0))
    decreases s, 0
  {
    var n := SymbolLength(s);
    if IsLocal(s[..n]) {
      ItemsUnglued(s[n..], 0);
      if s[n..] != [] {
        LabelNeedsStart(s[n..], 0);
      }
    } else {
      assert n < |s| ==> s[1..][n - 1] == s[n];
      ItemsUnglued(s[1..], n - 1);
      if s[1..] != [] {
        LabelNeedsStart(s[1..], n - 1);
      }
    }
  }

  /** The labels of a line are local symbols. */
  predicate IsLabelName(t: string) {
    IsLocal(t) && forall i | 0 <= i < |t| :: SymbolPart(t[i])
  }

  predicate ProperLabels(items: seq<Item>) {
    forall i | 0 <= i < |items| :: items[i].Label? ==> IsLabelName(items[i].name)
  }

  lemma {:induction false} ItemsLabels(s: string, quiet: nat)
    requires quiet <= |s|
    ensures ProperLabels(Items(s, quiet))
  {
    if s != [] {
      FirstItem(s, quiet);
      if StartsLabel(s, quiet) {
        ItemsLabels(s[SymbolLength(s)..], 0);
      } else {
        ItemsLabels(s[1..], NextQuiet(s, quiet));
      }
    }
  }

  // ---------------------------------------------------------------- erasing hashes keeps all of this

  /** The first item of an erased line is the first item of the line, or the start of a hash. */
  lemma ErasedHead(items: seq<Item>, quiet: nat)
    requires quiet <= |items| && items != []
    ensures ErasedItems(items, quiet) != []
    ensures ErasedItems(items, quiet)[0] == items[0]
  {
    if quiet == 0 && HashItems(items, 0) {
      HashItemsLength(items, 0);
      assert Plain(ERASED_HASH)[0] == Ch('1');
    }
  }

  lemma {:induction false} HashEnds(items: seq<Item>, p: nat)
    requires p < HASH_LENGTH && HashItems(items, p)
    ensures |items| >= HASH_LENGTH - p && items[HASH_LENGTH - p - 1] == Ch('E')
    decreases HASH_LENGTH - p
  {
    if p + 1 < HASH_LENGTH {
      HashEnds(items[1..], p + 1);
    }
  }

  lemma {:induction false} PlainSeparated(x: string, rest: seq<Item>)
    requires Separated(rest)
    ensures Separated(Plain(x) + rest)
  {
    if x == [] {
      assert Plain(x) + rest == rest;
    } else {
      PlainSeparated(x[1..], rest);
      assert (Plain(x) + rest)[1..] == Plain(x[1..]) + rest;
    }
  }

  lemma {:induction false} PlainUnglued(x: string, rest: seq<Item>)
    requires Unglued(rest) && (x != [] && rest != [] && rest[0].Label? ==> !SymbolStart(Last(x)))
    ensures Unglued(Plain(x) + rest)
  {
    if x == [] {
      assert Plain(x) + rest == rest;
    } else {
      PlainUnglued(x[1..], rest);
      assert (Plain(x) + rest)[1..] == Plain(x[1..]) + rest;
    }
  }

  lemma {:induction false} ErasedSeparated(items: seq<Item>, quiet: nat)
    requires quiet <= |items| && Separated(items)
    ensures Separated(ErasedItems(items, quiet))
    decreases |items|
  {
    if items != [] {
      if items[1..] != [] {
        ErasedHead(items[1..], if quiet > 0 then quiet - 1 else 0);
      }
      if quiet > 0 {
        ErasedSeparated(items[1..], quiet - 1);
      } else if items[0] == Ch('"') && CloseItems(items[1..]).Some? {
        ErasedSeparated(items[1..], CloseItems(items[1..]).value);
      } else if HashItems(items, 0) {
        HashItemsLength(items, 0);
        SeparatedTail(items, HASH_LENGTH);
        ErasedSeparated(items[HASH_LENGTH..], 0);
        PlainSeparated(ERASED_HASH, ErasedItems(items[HASH_LENGTH..], 0));
      } else {
        ErasedSeparated(items[1..], 0);
      }
    }
  }

  lemma {:induction false} UngluedTail(items: seq<Item>, n: nat)
    requires Unglued(items) && n <= |items|
    ensures Unglued(items[n..])
    ensures 0 < n < |items| && items[n].Label? ==> items[n - 1].Ch? && !SymbolStart(items[n - 1].c)
  {
    if n > 0 {
      UngluedTail(items[1..], n - 1);
      assert items[1..][n - 1..] == items[n..];
    }
  }

  lemma {:induction false} ErasedUnglued(items: seq<Item>, quiet: nat)
    requires quiet <= |items| && Unglued(items)
    ensures Unglued(ErasedItems(items, quiet))
    decreases |items|
  {
    if items != [] {
      if quiet > 0 {
        ErasedUnglued(items[1..], quiet - 1);
        HeadKeepsUnglued(items, quiet - 1);
      } else if items[0] == Ch('"') && CloseItems(items[1..]).Some? {
        ErasedUnglued(items[1..], CloseItems(items[1..]).value);
        HeadKeepsUnglued(items, CloseItems(items[1..]).value);
      } else if HashItems(items, 0) {
        HashEnds(items, 0);
        UngluedTail(items, HASH_LENGTH);
        ErasedUnglued(items[HASH_LENGTH..], 0);
        if items[HASH_LENGTH..] != [] {
          ErasedHead(items[HASH_LENGTH..], 0);
        }
        PlainUnglued(ERASED_HASH, ErasedItems(items[HASH_LENGTH..], 0));
      } else {
        ErasedUnglued(items[1..], 0);
        HeadKeepsUnglued(items, 0);
      }
    }
  }

  lemma HeadKeepsUnglued(items: seq<Item>, quiet: nat)
    requires items != [] && Unglued(items) && quiet <= |items| - 1 && Unglued(ErasedItems(items[1..], quiet))
    ensures Unglued([items[0]] + ErasedItems(items[1..], quiet))
  {
    if items[1..] != [] {
      ErasedHead(items[1..], quiet);
    }
    assert ([items[0]] + ErasedItems(items[1..], quiet))[1..] == ErasedItems(items[1..], quiet);
  }

  lemma {:induction false} ErasedLabels(items: seq<Item>, quiet: nat, labels: set<string>)
    requires quiet <= |items| && LabelsOnly(items, labels)
    ensures LabelsOnly(ErasedItems(items, quiet), labels)
    decreases |items|
  {
    if items != [] {
      if quiet > 0 {
        ErasedLabels(items[1..], quiet - 1, labels);
      } else if items[0] == Ch('"') && CloseItems(items[1..]).Some? {
        ErasedLabels(items[1..], CloseItems(items[1..]).value, labels);
      } else if HashItems(items, 0) {
        HashItemsLength(items, 0);
        ErasedLabels(items[HASH_LENGTH..], 0, labels);
      } else {
        ErasedLabels(items[1..], 0, labels);
      }
    }
  }

  // ---------------------------------------------------------------- reserved text

  /** Text without a hash or a string in it is on an erased line only if it is on the line. */
  lemma {:induction false} BeginsErased(items: seq<Item>, quiet: nat, m: string)
    requires quiet <= |items| && Begins(ErasedItems(items, quiet), m)
    requires forall i | 0 <= i < |m| :: m[i] != '1' && m[i] != '"'
    ensures Begins(items, m)
    decreases |m|
  {
    if m != [] {
      assert items != [];
      ErasedHead(items, quiet);
      assert quiet == 0 ==> !HashItems(items, 0);
      var rest := ErasedItems(items, quiet)[1..];
      var next := if quiet > 0 then quiet - 1 else 0;
      assert rest == ErasedItems(items[1..], next);
      BeginsErased(items[1..], next, m[1..]);
    }
  }

  lemma {:induction false} PlainUnreserved(x: string, rest: seq<Item>)
    requires Unreserved(rest) && '_' !in x
    ensures Unreserved(Plain(x) + rest)
  {
    if x == [] {
      assert Plain(x) + rest == rest;
    } else {
      PlainUnreserved(x[1..], rest);
      assert (Plain(x) + rest)[1..] == Plain(x[1..]) + rest;
      assert (Plain(x) + rest)[0] == Ch(x[0]);
    }
  }

  lemma {:induction false} UnreservedTail(items: seq<Item>, n: nat)
    requires Unreserved(items) && n <= |items|
    ensures Unreserved(items[n..])
  {
    if n > 0 {
      UnreservedTail(items[1..], n - 1);
      assert items[1..][n - 1..] == items[n..];
    }
  }

  lemma {:induction false} ErasedUnreserved(items: seq<Item>, quiet: nat)
    requires quiet <= |items| && Unreserved(items)
    ensures Unreserved(ErasedItems(items, quiet))
    decreases |items|
  {
    if items != [] {
      var e := ErasedItems(items, quiet);
      if quiet == 0 && HashItems(items, 0) {
        HashItemsLength(items, 0);
        UnreservedTail(items, HASH_LENGTH);
        ErasedUnreserved(items[HASH_LENGTH..], 0);
        PlainUnreserved(ERASED_HASH, ErasedItems(items[HASH_LENGTH..], 0));
      } else {
        var next := if quiet > 0 then quiet - 1
                    else if items[0] == Ch('"') && CloseItems(items[1..]).Some? then CloseItems(items[1..]).value
                      else 0;
        ErasedUnreserved(items[1..], next);
        assert e == [items[0]] + ErasedItems(items[1..], next) && e[1..] == ErasedItems(items[1..], next);
        NoMarkerErased(items, quiet);
      }
    }
  }

  lemma NoMarkerErased(items: seq<Item>, quiet: nat)
    requires quiet <= |items| && !Begins(items, "__LAB") && !Begins(items, "__REF")
    ensures !Begins(ErasedItems(items, quiet), "__LAB") && !Begins(ErasedItems(items, quiet), "__REF")
  {
    if Begins(ErasedItems(items, quiet), "__LAB") {
      BeginsErased(items, quiet, "__LAB");
    }
    if Begins(ErasedItems(items, quiet), "__REF") {
      BeginsErased(items, quiet, "__REF");
    }
  }

  const ATTRS_MARK: string := "__SECTION_ATTRS__"

  /** Text made of symbol characters at the front of a rendering is at the front of the line. */
  lemma {:induction false} RenderedSymbol(items: seq<Item>, text: string -> string, front: string)
    requires Unglued(items) && StartsWith(Render(items, text), front)
    requires forall i | 0 <= i < |front| :: SymbolStart(front[i])
    requires items != [] && items[0].Label? ==> front == []
    ensures Begins(items, front)
  {
    if front != [] {
      var w := Render(items, text);
      assert w[0] == w[..|front|][0];
      assert Render(items[1..], text) == w[1..];
      assert w[1..][..|front| - 1] == front[1..];
      if |front| == 1 {
        assert front[1..] == [];
      } else {
        RenderedSymbol(items[1..], text, front[1..]);
      }
    }
  }

  // ---------------------------------------------------------------- label definitions

  /** The label a line of assembly defines. */
  function DefinedLabel(s: string): Option<string> {
    var n := SymbolLength(s);
    if IsLocal(s[..n]) && n < |s| && s[n] == ':' then Some(s[..n]) else None
  }

  function HeadLabel(items: seq<Item>): Option<string> {
    if |items| >= 2 && items[0].Label? && items[1] == Ch(':') then Some(items[0].name) else None
  }

  lemma LineDefines(s: string)
    ensures HeadLabel(Line(s)) == DefinedLabel(s)
  {
    if s != [] {
      var n := SymbolLength(s);
      assert IsLocal(s[..n]) ==> s[..n][0] == '.' == s[0];
      LabelNeedsStart(s, 0);
      if IsLocal(s[..n]) && s[n..] != [] {
        LabelNeedsStart(s[n..], 0);
        assert s[n..][0] == s[n];
      }
    }
  }

  lemma ErasedHeadLabel(items: seq<Item>)
    ensures HeadLabel(ErasedItems(items, 0)) == HeadLabel(items)
  {
    if items != [] {
      ErasedHead(items, 0);
      if items[0].Label? && items[1..] != [] {
        ErasedHead(items[1..], 0);
      }
    }
  }

  lemma ContentDefines(s: string)
    ensures HeadLabel(Content(s)) == DefinedLabel(s)
  {
    LineDefines(s);
    ErasedHeadLabel(Line(s));
  }

  // ---------------------------------------------------------------- renaming labels

  lemma {:induction false} MapLabelsAt(items: seq<Item>, rename: string -> string, i: nat)
    requires i < |items|
    ensures MapLabels(items, rename)[i]
            == match items[i] case Ch(c) => Ch(c) case Label(name) => Label(rename(name))
  {
    if i > 0 {
      MapLabelsAt(items[1..], rename, i - 1);
    }
  }

  lemma MapLabelsHead(items: seq<Item>, rename: string -> string)
    ensures HeadLabel(MapLabels(items, rename))
            == match HeadLabel(items) case None => None case Some(name) => Some(rename(name))
  {
    if |items| >= 2 {
      MapLabelsAt(items, rename, 0);
      MapLabelsAt(items, rename, 1);
    }
  }

  lemma {:induction false} MapLabelsSame(items: seq<Item>, f: string -> string, g: string -> string)
    requires forall i | 0 <= i < |items| :: items[i].Label? ==> f(items[i].name) == g(items[i].name)
    ensures MapLabels(items, f) == MapLabels(items, g)
  {
    if items != [] {
      MapLabelsSame(items[1..], f, g);
    }
  }

  lemma {:induction false} MapLabelsIdentity(items: seq<Item>, f: string -> string)
    requires forall i | 0 <= i < |items| :: items[i].Label? ==> f(items[i].name) == items[i].name
    ensures MapLabels(items, f) == items
  {
    if items != [] {
      MapLabelsIdentity(items[1..], f);
    }
  }

  lemma {:induction false} RenderSame(items: seq<Item>, f: string -> string, rename: string -> string,
                                      g: string -> string)
    requires forall i | 0 <= i < |items| :: items[i].Label? ==> f(items[i].name) == g(rename(items[i].name))
    ensures Render(items, f) == Render(MapLabels(items, rename), g)
  {
    if items != [] {
      RenderSame(items[1..], f, rename, g);
    }
  }
}
