/** The text layer of the assembly comparator: finding local labels in a line, erasing instance hashes
    outside quoted strings, and why the two do not interfere. */
module AsmText {
  import opened Protocol
  import opened Decimal

  // ---------------------------------------------------------------- characters

  predicate IsLetter(c: char) { 'a' <= c <= 'z' || 'A' <= c <= 'Z' }

  predicate SymbolStart(c: char) { IsLetter(c) || c == '_' || c == '.' }

  predicate SymbolPart(c: char) { SymbolStart(c) || IsDigit(c) || c == '$' }

  predicate IsHex(c: char) { IsDigit(c) || 'a' <= c <= 'f' }

  // ---------------------------------------------------------------- quotes and symbols

  /** How many characters lead from just after an opening quote through its closing quote; a backslash
      takes the next character with it. */
  function CloseQuote(s: string): (n: Option<nat>)
    ensures n.Some? ==> 0 < n.value <= |s|
  {
    if s == [] then None
    else if s[0] == '"' then Some(1)
    else
      var step := if s[0] == '\\' then 2 else 1;
      if |s| < step then None
      else match CloseQuote(s[step..]) case None => None case Some(n) => Some(n + step)
  }

  function SymbolLength(s: string): (n: nat)
    ensures n <= |s|
    ensures n < |s| ==> !SymbolPart(s[n])
    ensures forall i | 0 <= i < n :: SymbolPart(s[i])
  {
    if s == [] || !SymbolPart(s[0]) then 0 else 1 + SymbolLength(s[1..])
  }

  predicate IsLocal(symbol: string) { |symbol| >= 2 && symbol[..2] == ".L" }

  // ---------------------------------------------------------------- a line as items

  /** A line is a sequence of plain characters and local-label occurrences. */
  datatype Item = Ch(c: char) | Label(name: string)

  /** Reads a line left to right. The first `quiet` characters belong to a quoted string, a comment or an
      ordinary symbol already recognised, and are plain. */
  function Items(s: string, quiet: nat): seq<Item>
    requires quiet <= |s|
  {
    if s == [] then []
    else if quiet > 0 then [Ch(s[0])] + Items(s[1..], quiet - 1)
    else if s[0] == '"' && CloseQuote(s[1..]).Some? then [Ch(s[0])] + Items(s[1..], CloseQuote(s[1..]).value)
    else if s[0] == '#' then [Ch(s[0])] + Items(s[1..], |s| - 1)
    else if SymbolStart(s[0]) then
      var n := SymbolLength(s);
      if IsLocal(s[..n]) then [Label(s[..n])] + Items(s[n..], 0) else [Ch(s[0])] + Items(s[1..], n - 1)
    else [Ch(s[0])] + Items(s[1..], 0)
  }

  function Line(s: string): seq<Item> { Items(s, 0) }

  /** Puts a line back together with `text` in place of each label. */
  function Render(items: seq<Item>, text: string -> string): string {
    if items == [] then ""
    else (match items[0] case Ch(c) => [c] case Label(name) => text(name)) + Render(items[1..], text)
  }

  lemma RenderCons(item: Item, rest: seq<Item>, text: string -> string)
    ensures Render([item] + rest, text)
            == (match item case Ch(c) => [c] case Label(name) => text(name)) + Render(rest, text)
  {
    assert ([item] + rest)[1..] == rest;
  }

  predicate StartsLabel(s: string, quiet: nat) {
    quiet == 0 && s != [] && SymbolStart(s[0]) && IsLocal(s[..SymbolLength(s)])
  }

  /** How many characters are already recognised once a plain first character is read. */
  function NextQuiet(s: string, quiet: nat): (next: nat)
    requires s != [] && quiet <= |s|
    ensures next <= |s| - 1
  {
    if quiet > 0 then quiet - 1
    else if s[0] == '"' && CloseQuote(s[1..]).Some? then CloseQuote(s[1..]).value
    else if s[0] == '#' then |s| - 1
    else if SymbolStart(s[0]) then SymbolLength(s) - 1
    else 0
  }

  lemma FirstItem(s: string, quiet: nat)
    requires s != [] && quiet <= |s|
    ensures Items(s, quiet)
            == if StartsLabel(s, quiet) then [Label(s[..SymbolLength(s)])] + Items(s[SymbolLength(s)..], 0)
               else [Ch(s[0])] + Items(s[1..], NextQuiet(s, quiet))
  {
  }

  lemma Halves(s: string, n: nat)
    requires n <= |s|
    ensures s[..n] + s[n..] == s && (s != [] ==> [s[0]] + s[1..] == s)
  {
  }

  lemma {:induction false} RenderItems(s: string, quiet: nat)
    requires quiet <= |s|
    ensures Render(Items(s, quiet), x => x) == s
  {
    if s != [] {
      FirstItem(s, quiet);
      if StartsLabel(s, quiet) {
        var n := SymbolLength(s);
        RenderItems(s[n..], 0);
        RenderCons(Label(s[..n]), Items(s[n..], 0), x => x);
        Halves(s, n);
      } else {
        RenderItems(s[1..], NextQuiet(s, quiet));
        RenderCons(Ch(s[0]), Items(s[1..], NextQuiet(s, quiet)), x => x);
        Halves(s, 1);
      }
    }
  }

  /** A label occurrence is never directly followed by something it could have run into. */
  predicate Separated(items: seq<Item>) {
    if items == [] then true
    else (items[0].Label? && |items| > 1 ==> items[1].Ch? && !SymbolPart(items[1].c)) && Separated(items[1..])
  }

  predicate LabelsOnly(items: seq<Item>, labels: set<string>) {
    forall i | 0 <= i < |items| :: items[i].Label? ==> items[i].name in labels
  }

  lemma {:induction false} ItemsSeparated(s: string, quiet: nat)
    requires quiet <= |s|
    ensures Separated(Items(s, quiet))
    ensures s != [] && !SymbolPart(s[0]) ==> Items(s, quiet)[0] == Ch(s[0])
  {
    if s != [] {
      FirstItem(s, quiet);
      if StartsLabel(s, quiet) {
        ItemsSeparated(s[SymbolLength(s)..], 0);
      } else {
        ItemsSeparated(s[1..], NextQuiet(s, quiet));
      }
    }
  }

  // ---------------------------------------------------------------- instance hashes

  const HASH_LENGTH: nat := 20

  const ERASED_HASH: string := "17hHASHE"

  /** Character p of an instance hash: 1, 7, h, sixteen hexadecimal digits, E. */
  predicate HashChar(p: nat, c: char) {
    if p == 0 then c == '1'
    else if p == 1 then c == '7'
    else if p == 2 then c == 'h'
    else if p < 19 then IsHex(c)
    else c == 'E'
  }

  /** The text starts with characters p to 19 of an instance hash. */
  predicate HashTail(s: string, p: nat)
    requires p <= HASH_LENGTH
    decreases HASH_LENGTH - p
  {
    p == HASH_LENGTH || (s != [] && HashChar(p, s[0]) && HashTail(s[1..], p + 1))
  }

  lemma {:induction false} HashTailLength(s: string, p: nat)
    requires p <= HASH_LENGTH && HashTail(s, p)
    ensures |s| >= HASH_LENGTH - p
    decreases HASH_LENGTH - p
  {
    if p < HASH_LENGTH {
      HashTailLength(s[1..], p + 1);
    }
  }

  /** Erases instance hashes outside quoted strings. The first `quiet` characters are inside a string. */
  function Erased(s: string, quiet: nat): string
    requires quiet <= |s|
    decreases |s|
  {
    if s == [] then ""
    else if quiet > 0 then [s[0]] + Erased(s[1..], quiet - 1)
    else if s[0] == '"' && CloseQuote(s[1..]).Some? then [s[0]] + Erased(s[1..], CloseQuote(s[1..]).value)
    else if HashTail(s, 0) then (HashTailLength(s, 0); ERASED_HASH + Erased(s[HASH_LENGTH..], 0))
    else [s[0]] + Erased(s[1..], 0)
  }

  function NormalizeHashes(s: string): string { Erased(s, 0) }

  // ---------------------------------------------------------------- the same on items

  function CloseItems(items: seq<Item>): (n: Option<nat>)
    ensures n.Some? ==> 0 < n.value <= |items|
  {
    if items == [] then None
    else if items[0] == Ch('"') then Some(1)
    else
      var step := if items[0] == Ch('\\') then 2 else 1;
      if |items| < step then None
      else match CloseItems(items[step..]) case None => None case Some(n) => Some(n + step)
  }

  predicate HashItems(items: seq<Item>, p: nat)
    requires p <= HASH_LENGTH
    decreases HASH_LENGTH - p
  {
    p == HASH_LENGTH
    || (items != [] && items[0].Ch? && HashChar(p, items[0].c) && HashItems(items[1..], p + 1))
  }

  lemma {:induction false} HashItemsLength(items: seq<Item>, p: nat)
    requires p <= HASH_LENGTH && HashItems(items, p)
    ensures |items| >= HASH_LENGTH - p
    decreases HASH_LENGTH - p
  {
    if p < HASH_LENGTH {
      HashItemsLength(items[1..], p + 1);
    }
  }

  function Plain(s: string): (items: seq<Item>)
    ensures |items| == |s|
  {
    seq(|s|, i requires 0 <= i < |s| => Ch(s[i]))
  }

  /** Erases instance hashes outside strings and outside local labels. */
  function ErasedItems(items: seq<Item>, quiet: nat): seq<Item>
    requires quiet <= |items|
    decreases |items|
  {
    if items == [] then []
    else if quiet > 0 then [items[0]] + ErasedItems(items[1..], quiet - 1)
    else if items[0] == Ch('"') && CloseItems(items[1..]).Some? then
      [items[0]] + ErasedItems(items[1..], CloseItems(items[1..]).value)
    else if HashItems(items, 0) then
      HashItemsLength(items, 0);
      Plain(ERASED_HASH) + ErasedItems(items[HASH_LENGTH..], 0)
    else [items[0]] + ErasedItems(items[1..], 0)
  }

  /** What a source line says, up to instance hashes. */
  function Content(s: string): seq<Item> { ErasedItems(Line(s), 0) }

  // ---------------------------------------------------------------- harmless label texts

  /** Reading these characters inside a string neither closes it nor ends in the middle of an escape. */
  predicate EscapeSafe(t: string) {
    if t == [] then true
    else if t[0] == '"' then false
    else if t[0] == '\\' then |t| >= 2 && EscapeSafe(t[2..])
    else EscapeSafe(t[1..])
  }

  /** No quote and no instance hash anywhere in it. */
  predicate Inert(t: string) {
    t == [] || (t[0] != '"' && !HashTail(t, 0) && Inert(t[1..]))
  }

  /** A text that can stand for a label without disturbing its surroundings. */
  predicate Harmless(t: string) {
    t != [] && t[0] == '_' && EscapeSafe(t) && Inert(t)
  }

  function Moved(o: Option<nat>, k: nat): Option<nat> { match o case None => None case Some(n) => Some(n + k) }

  /** Reading a text inside a string goes on behind its first character, or behind the one it escapes. */
  lemma QuoteStep(x: string, r: string, step: nat)
    requires x != [] && x[0] != '"' && step == (if x[0] == '\\' then 2 else 1) && |x| >= step
    ensures CloseQuote(x + r) == Moved(CloseQuote(x[step..] + r), step)
  {
    assert (x + r)[step..] == x[step..] + r;
  }

  lemma {:induction false} CloseSkips(t: string, r: string)
    requires EscapeSafe(t)
    ensures CloseQuote(t + r) == Moved(CloseQuote(r), |t|)
  {
    if t == [] {
      assert t + r == r;
    } else {
      var step := if t[0] == '\\' then 2 else 1;
      QuoteStep(t, r, step);
      CloseSkips(t[step..], r);
    }
  }

  /** A hash that would cross from t into r needs a hash character at the start of r. */
  lemma {:induction false} HashDoesNotCross(t: string, r: string, p: nat)
    requires p <= HASH_LENGTH && (r == [] || !SymbolPart(r[0])) && HashTail(t + r, p)
    ensures HashTail(t, p)
    decreases HASH_LENGTH - p
  {
    if p < HASH_LENGTH && t != [] {
      assert (t + r)[1..] == t[1..] + r;
      HashDoesNotCross(t[1..], r, p + 1);
    }
  }

  lemma NoCrossing(t: string, r: string)
    requires t != [] && !HashTail(t, 0) && (r == [] || !SymbolPart(r[0]))
    ensures !HashTail(t + r, 0)
  {
    if HashTail(t + r, 0) {
      HashDoesNotCross(t, r, 0);
    }
  }

  lemma {:induction false} InertSkips(t: string, r: string)
    requires Inert(t) && (r == [] || !SymbolPart(r[0]))
    ensures Erased(t + r, 0) == t + Erased(r, 0)
  {
    if t == [] {
      assert t + r == r;
    } else {
      assert (t + r)[1..] == t[1..] + r;
      NoCrossing(t, r);
      InertSkips(t[1..], r);
      assert [t[0]] + (t[1..] + Erased(r, 0)) == t + Erased(r, 0);
    }
  }

  lemma {:induction false} QuietSkips(t: string, r: string, quiet: nat)
    requires quiet <= |r|
    ensures Erased(t + r, |t| + quiet) == t + Erased(r, quiet)
  {
    if t == [] {
      assert t + r == r;
    } else {
      assert (t + r)[1..] == t[1..] + r;
      QuietSkips(t[1..], r, quiet);
      assert [t[0]] + (t[1..] + Erased(r, quiet)) == t + Erased(r, quiet);
    }
  }

  // ---------------------------------------------------------------- erasing hashes commutes with writing labels

  predicate AllHarmless(items: seq<Item>, text: string -> string) {
    forall i | 0 <= i < |items| :: items[i].Label? ==> Harmless(text(items[i].name))
  }

  /** A text that cannot close a string, wherever in the string it stands. */
  predicate QuoteSafe(t: string) { t != [] && t[0] != '\\' && EscapeSafe(t) }

  predicate AllQuoteSafe(items: seq<Item>, text: string -> string) {
    forall i | 0 <= i < |items| :: items[i].Label? ==> QuoteSafe(text(items[i].name))
  }

  lemma {:induction false} RenderAppend(a: seq<Item>, b: seq<Item>, text: string -> string)
    ensures Render(a + b, text) == Render(a, text) + Render(b, text)
  {
    if a == [] {
      assert a + b == b;
    } else {
      assert (a + b)[1..] == a[1..] + b;
      RenderAppend(a[1..], b, text);
    }
  }

  lemma RenderFront(items: seq<Item>, k: nat, n: nat, text: string -> string)
    requires k + n <= |items|
    ensures Render(items[..k + n], text) == Render(items[..k], text) + Render(items[k..][..n], text)
  {
    assert items[..k + n] == items[..k] + items[k..][..n];
    RenderAppend(items[..k], items[k..][..n], text);
  }

  lemma RenderOne(items: seq<Item>, text: string -> string)
    requires items != []
    ensures Render(items[..1], text) == match items[0] case Ch(c) => [c] case Label(name) => text(name)
    ensures Render(items, text) == Render(items[..1], text) + Render(items[1..], text)
  {
    assert items[..1][1..] == [];
  }

  /** The length of the rendering of the items up to c. */
  function RenderedTo(items: seq<Item>, c: Option<nat>, text: string -> string): Option<nat>
    requires c.Some? ==> c.value <= |items|
  {
    match c case None => None case Some(n) => Some(|Render(items[..n], text)|)
  }

  /** Where the rendering of the items closes a string, if it does. */
  function RenderedClose(items: seq<Item>, text: string -> string): Option<nat> {
    RenderedTo(items, CloseItems(items), text)
  }

  lemma {:induction false} CloseRender(items: seq<Item>, text: string -> string)
    requires AllQuoteSafe(items, text)
    ensures CloseQuote(Render(items, text)) == RenderedClose(items, text)
  {
    if items != [] {
      RenderOne(items, text);
      if items[0] == Ch('\\') {
        if |items| > 1 {
          CloseRender(items[2..], text);
          assert items[1].Label? ==> QuoteSafe(text(items[1].name));
          EscapeMoves(items, text);
          RenderedToMoved(items, 2, CloseItems(items[2..]), text);
        } else {
          EscapeAlone(items, text);
        }
      } else if items[0] != Ch('"') {
        CloseRender(items[1..], text);
        assert items[0].Label? ==> QuoteSafe(text(items[0].name));
        FirstMoves(items, text);
        RenderedToMoved(items, 1, CloseItems(items[1..]), text);
      }
    }
  }

  lemma RenderedToMoved(items: seq<Item>, k: nat, c: Option<nat>, text: string -> string)
    requires k <= |items| && (c.Some? ==> c.value <= |items| - k)
    ensures RenderedTo(items, Moved(c, k), text) == Moved(RenderedTo(items[k..], c, text), |Render(items[..k], text)|)
  {
    if c.Some? {
      RenderedLength(items, k, c.value, text);
    }
  }

  lemma RenderedLength(items: seq<Item>, k: nat, n: nat, text: string -> string)
    requires k + n <= |items|
    ensures |Render(items[..k + n], text)| == |Render(items[..k], text)| + |Render(items[k..][..n], text)|
  {
    RenderFront(items, k, n, text);
  }

  lemma FirstMoves(items: seq<Item>, text: string -> string)
    requires items != [] && items[0] != Ch('"') && items[0] != Ch('\\')
    requires items[0].Label? ==> QuoteSafe(text(items[0].name))
    ensures CloseItems(items) == Moved(CloseItems(items[1..]), 1)
    ensures CloseQuote(Render(items, text)) == Moved(CloseQuote(Render(items[1..], text)), |Render(items[..1], text)|)
  {
    RenderOne(items, text);
    FirstIsEscapeSafe(items, text);
    SkipsMove(Render(items[..1], text), Render(items[1..], text));
    CloseItemsBehind(items);
  }

  lemma SkipsMove(first: string, rest: string)
    requires EscapeSafe(first)
    ensures CloseQuote(first + rest) == Moved(CloseQuote(rest), |first|)
  {
    CloseSkips(first, rest);
  }

  lemma FirstIsEscapeSafe(items: seq<Item>, text: string -> string)
    requires items != [] && items[0] != Ch('"') && items[0] != Ch('\\')
    requires items[0].Label? ==> QuoteSafe(text(items[0].name))
    ensures EscapeSafe(Render(items[..1], text))
  {
    RenderOne(items, text);
    if items[0].Ch? {
      assert Render(items[..1], text)[1..] == [];
    }
  }

  lemma CloseItemsBehind(items: seq<Item>)
    requires items != [] && items[0] != Ch('"') && items[0] != Ch('\\')
    ensures CloseItems(items) == Moved(CloseItems(items[1..]), 1)
  {
  }

  lemma EscapeAlone(items: seq<Item>, text: string -> string)
    requires items == [Ch('\\')]
    ensures CloseQuote(Render(items, text)) == None && CloseItems(items) == None
  {
    RenderOne(items, text);
    assert items[1..] == [];
  }

  lemma EscapeMoves(items: seq<Item>, text: string -> string)
    requires |items| > 1 && items[0] == Ch('\\') && (items[1].Label? ==> QuoteSafe(text(items[1].name)))
    ensures CloseItems(items) == Moved(CloseItems(items[2..]), 2)
    ensures CloseQuote(Render(items, text)) == Moved(CloseQuote(Render(items[2..], text)), |Render(items[..2], text)|)
  {
    var second := Render([items[1]], text);
    TwoItems(items, text);
    EscapedItem(items[1], text);
    EscapeTakesOne(second, Render(items[2..], text));
  }

  lemma TwoItems(items: seq<Item>, text: string -> string)
    requires |items| > 1 && items[0] == Ch('\\')
    ensures Render(items, text) == "\\" + (Render([items[1]], text) + Render(items[2..], text))
    ensures Render(items[..2], text) == "\\" + Render([items[1]], text)
  {
    RenderCons(items[0], items[1..], text);
    RenderAppend([items[1]], items[2..], text);
    RenderCons(items[0], [items[1]], text);
    assert items == [items[0]] + items[1..] && items[1..] == [items[1]] + items[2..]
        && items[..2] == [items[0]] + [items[1]];
  }

  lemma EscapedItem(item: Item, text: string -> string)
    requires item.Label? ==> QuoteSafe(text(item.name))
    ensures Render([item], text) != [] && EscapeSafe(Render([item], text)[1..])
  {
    RenderCons(item, [], text);
    assert [item] + [] == [item];
    if item.Label? {
      assert text(item.name) + "" == text(item.name);
    } else {
      assert Render([item], text)[1..] == [];
    }
  }

  lemma EscapeTakesOne(t: string, r: string)
    requires t != [] && EscapeSafe(t[1..])
    ensures CloseQuote("\\" + (t + r)) == Moved(CloseQuote(r), |t| + 1)
  {
    var s := "\\" + (t + r);
    assert s[2..] == t[1..] + r;
    CloseSkips(t[1..], r);
  }

  lemma HashRenderStep(items: seq<Item>, text: string -> string, p: nat)
    requires items != [] && items[0].Ch? && p < HASH_LENGTH
    ensures Render(items, text) == [items[0].c] + Render(items[1..], text)
    ensures HashTail(Render(items, text), p) <==> HashChar(p, items[0].c) && HashTail(Render(items[1..], text), p + 1)
    ensures HashItems(items, p) <==> HashChar(p, items[0].c) && HashItems(items[1..], p + 1)
  {
    assert Render(items, text)[1..] == Render(items[1..], text);
  }

  lemma NoHashAtLabel(items: seq<Item>, text: string -> string, p: nat)
    requires items != [] && items[0].Label? && Harmless(text(items[0].name)) && p < HASH_LENGTH
    ensures !HashTail(Render(items, text), p) && !HashItems(items, p)
  {
    assert Render(items, text)[0] == '_';
  }

  lemma TailOfCons<T>(first: T, rest: seq<T>, n: nat)
    requires 0 < n <= |rest| + 1
    ensures ([first] + rest)[n..] == rest[n - 1..]
  {
  }

  lemma {:induction false} HashRender(items: seq<Item>, text: string -> string, p: nat)
    requires AllHarmless(items, text) && p <= HASH_LENGTH
    ensures HashTail(Render(items, text), p) <==> HashItems(items, p)
    ensures HashItems(items, p) ==>
              && |items| >= HASH_LENGTH - p && |Render(items, text)| >= HASH_LENGTH - p
              && Render(items, text)[HASH_LENGTH - p..] == Render(items[HASH_LENGTH - p..], text)
    decreases HASH_LENGTH - p
  {
    if p < HASH_LENGTH && items != [] {
      if items[0].Label? {
        NoHashAtLabel(items, text, p);
      } else {
        HashRender(items[1..], text, p + 1);
        HashRenderStep(items, text, p);
        if HashItems(items, p) {
          TailOfCons(items[0].c, Render(items[1..], text), HASH_LENGTH - p);
          TailOfCons(items[0], items[1..], HASH_LENGTH - p);
          assert items == [items[0]] + items[1..];
        }
      }
    }
  }

  lemma {:induction false} RenderPlain(s: string, text: string -> string)
    ensures Render(Plain(s), text) == s
  {
    if s != [] {
      assert Plain(s)[1..] == Plain(s[1..]);
      RenderPlain(s[1..], text);
    }
  }

  /** Writing harmless texts for the labels and then erasing hashes from the string is the same as erasing
      hashes around the labels first and writing the texts afterwards. */
  lemma {:induction false} EraseRender(items: seq<Item>, text: string -> string, quiet: nat)
    requires Separated(items) && AllHarmless(items, text) && quiet <= |items|
    ensures |Render(items[..quiet], text)| <= |Render(items, text)|
    ensures Erased(Render(items, text), |Render(items[..quiet], text)|) == Render(ErasedItems(items, quiet), text)
    decreases |items|, 1
  {
    RenderFront(items, quiet, |items| - quiet, text);
    assert items[..quiet + (|items| - quiet)] == items;
    if items != [] {
      RenderOne(items, text);
      if quiet > 0 {
        EraseQuiet(items, text, quiet);
      } else {
        assert items[..0] == [];
        if items[0] == Ch('"') && CloseItems(items[1..]).Some? {
          CloseRender(items[1..], text);
          EraseRender(items[1..], text, CloseItems(items[1..]).value);
        } else if HashItems(items, 0) {
          EraseHash(items, text);
        } else if items[0].Ch? {
          CloseRender(items[1..], text);
          HashRender(items, text, 0);
          EraseRender(items[1..], text, 0);
          assert items[1..][..0] == [];
        } else {
          EraseRender(items[1..], text, 0);
          assert items[1..][..0] == [];
          InertSkips(text(items[0].name), Render(items[1..], text));
        }
      }
    }
  }

  lemma HashErased(s: string, rest: string)
    requires HashTail(s, 0) && |s| >= HASH_LENGTH && s[HASH_LENGTH..] == rest
    ensures Erased(s, 0) == ERASED_HASH + Erased(rest, 0)
  {
  }

  lemma HashItemsErased(items: seq<Item>)
    requires HashItems(items, 0) && |items| >= HASH_LENGTH
    ensures ErasedItems(items, 0) == Plain(ERASED_HASH) + ErasedItems(items[HASH_LENGTH..], 0)
  {
  }

  lemma ErasedItemsRendered(rest: seq<Item>, text: string -> string)
    ensures Render(Plain(ERASED_HASH) + ErasedItems(rest, 0), text) == ERASED_HASH + Render(ErasedItems(rest, 0), text)
  {
    RenderAppend(Plain(ERASED_HASH), ErasedItems(rest, 0), text);
    RenderPlain(ERASED_HASH, text);
  }

  lemma EraseHash(items: seq<Item>, text: string -> string)
    requires Separated(items) && AllHarmless(items, text) && HashItems(items, 0)
    ensures Erased(Render(items, text), 0) == Render(ErasedItems(items, 0), text)
    decreases |items|, 0
  {
    HashItemsLength(items, 0);
    HashRender(items, text, 0);
    var rest := items[HASH_LENGTH..];
    SeparatedTail(items, HASH_LENGTH);
    EraseRender(rest, text, 0);
    assert rest[..0] == [];
    HashErased(Render(items, text), Render(rest, text));
    HashItemsErased(items);
    ErasedItemsRendered(rest, text);
  }

  lemma {:induction false} SeparatedTail(items: seq<Item>, n: nat)
    requires Separated(items) && n <= |items|
    ensures Separated(items[n..])
  {
    if n > 0 {
      SeparatedTail(items[1..], n - 1);
      assert items[1..][n - 1..] == items[n..];
    }
  }

  lemma EraseQuiet(items: seq<Item>, text: string -> string, quiet: nat)
    requires Separated(items) && AllHarmless(items, text) && 0 < quiet <= |items|
    ensures |Render(items[..quiet], text)| <= |Render(items, text)|
    ensures Erased(Render(items, text), |Render(items[..quiet], text)|) == Render(ErasedItems(items, quiet), text)
    decreases |items|, 0
  {
    EraseRender(items[1..], text, quiet - 1);
    QuietJoin(items, text, quiet);
  }

  lemma QuietJoin(items: seq<Item>, text: string -> string, quiet: nat)
    requires 0 < quiet <= |items|
    requires var rest, inside := Render(items[1..], text), |Render(items[1..][..quiet - 1], text)|;
             inside <= |rest| && Erased(rest, inside) == Render(ErasedItems(items[1..], quiet - 1), text)
    ensures |Render(items[..quiet], text)| <= |Render(items, text)|
    ensures Erased(Render(items, text), |Render(items[..quiet], text)|) == Render(ErasedItems(items, quiet), text)
  {
    RenderOne(items, text);
    RenderFront(items, 1, quiet - 1, text);
    QuietFirst(items, quiet);
    RenderCons(items[0], ErasedItems(items[1..], quiet - 1), text);
    QuietSkips(Render(items[..1], text), Render(items[1..], text), |Render(items[1..][..quiet - 1], text)|);
  }

  lemma QuietFirst(items: seq<Item>, quiet: nat)
    requires 0 < quiet <= |items|
    ensures ErasedItems(items, quiet) == [items[0]] + ErasedItems(items[1..], quiet - 1)
  {
  }
}
