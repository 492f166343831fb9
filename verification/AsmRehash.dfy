/** Other digits for an instance hash, in the text itself: exactly when they show in what a line says, and that
    the output and the exit code do not depend on digits that do not show. */
module AsmRehash {
  import opened Protocol
  import opened Decimal
  import opened AsmText
  import opened AsmMarkers
  import opened AsmContent
  import opened AsmReading
  import opened AsmFile
  import opened AsmBlanks
  import opened AsmBodies
  import opened AsmRename
  import opened AsmHashes

  // ---------------------------------------------------------------- where a hash stands in a line

  /** The text x in front of z ends outside every string that the line closes. */
  predicate Outside(x: string, z: string)
    decreases |x|
  {
    if x == "" then true
    else if x[0] == '"' && CloseQuote(x[1..] + z).Some? then
      CloseQuote(x[1..] + z).value < |x| && Outside(x[1 + CloseQuote(x[1..] + z).value..], z)
    else Outside(x[1..], z)
  }

  /** The same when the first w characters of the line are inside a string. */
  predicate OutsideAt(x: string, z: string, w: nat) { w <= |x| && Outside(x[w..], z) }

  /** A local label begins in x and goes on into z. */
  predicate InLabel(x: string, z: string, u: nat)
    requires u <= |x| + |z|
    decreases |x|
  {
    if x == "" then false
    else if StartsLabel(x + z, u) then
      SymbolLength(x + z) > |x| || InLabel(x[SymbolLength(x + z)..], z, 0)
    else InLabel(x[1..], z, NextQuiet(x + z, u))
  }

  function Same(name: string): string { name }

  lemma HashIsSymbol(t: string)
    requires IsHash(t)
    ensures Solid(t)
  {
    HashIsSolid(t, 0);
  }

  lemma {:induction false} SymbolAcross(x: string, h: string, y: string)
    requires IsHash(h)
    ensures SymbolLength(x + (h + y)) == if SymbolLength(x) < |x| then SymbolLength(x)
            else |x| + HASH_LENGTH + SymbolLength(y)
  {
    if x == [] {
      assert x + (h + y) == h + y;
      HashIsSymbol(h);
      SymbolRunsOn(h, y);
    } else {
      assert (x + (h + y))[1..] == x[1..] + (h + y);
      SymbolAcross(x[1..], h, y);
    }
  }

  lemma {:induction false} QuoteAcross(x: string, h: string, g: string, y: string)
    requires IsHash(h) && IsHash(g)
    ensures CloseQuote(x + (h + y)) == CloseQuote(x + (g + y))
  {
    if x == [] || x == "\\" {
      HashesBehindQuote(x, h, g, y);
    } else if x[0] == '"' {
      ClosedAtOnce(x, h + y);
      ClosedAtOnce(x, g + y);
    } else {
      var step := if x[0] == '\\' then 2 else 1;
      QuoteStep(x, h + y, step);
      QuoteStep(x, g + y, step);
      QuoteAcross(x[step..], h, g, y);
    }
  }

  lemma HashesBehindQuote(x: string, h: string, g: string, y: string)
    requires (x == [] || x == "\\") && IsHash(h) && IsHash(g)
    ensures CloseQuote(x + (h + y)) == CloseQuote(x + (g + y))
  {
    HashBehindQuote(x, h, y);
    HashBehindQuote(x, g, y);
  }

  lemma ClosedAtOnce(x: string, r: string)
    requires x != [] && x[0] == '"'
    ensures CloseQuote(x + r) == Some(1)
  {
  }

  lemma HashBehindQuote(x: string, h: string, y: string)
    requires (x == [] || x == "\\") && IsHash(h)
    ensures CloseQuote(x + (h + y)) == Moved(CloseQuote(y), |x| + |h|)
  {
    HashIsSymbol(h);
    SymbolPartsEscape(h);
    SymbolPartsEscape(h[1..]);
    if x == [] {
      assert x + (h + y) == h + y;
      CloseSkips(h, y);
    } else {
      EscapeTakesOne(h, y);
    }
  }

  lemma HashStarts(h: string)
    requires IsHash(h)
    ensures h[0] == '1'
  {
  }

  lemma SecondCharacter(x: string, h: string, y: string)
    requires IsHash(h) && x != []
    ensures var s := x + (h + y); s[0] == x[0] && s[1] == (if |x| > 1 then x[1] else '1')
  {
    HashStarts(h);
  }

  lemma SameBeginning(s: string, t: string, n: nat)
    requires n <= |s| && n <= |t| && |s| > 1 && |t| > 1 && s[0] == t[0] && s[1] == t[1]
    ensures IsLocal(s[..n]) <==> IsLocal(t[..n])
  {
    assert n >= 2 ==> s[..n][..2] == [s[0], s[1]] && t[..n][..2] == [t[0], t[1]];
  }

  lemma SameNext(s: string, t: string, quiet: nat)
    requires s != [] && |s| == |t| && s[0] == t[0] && quiet <= |s|
    requires SymbolLength(s) == SymbolLength(t) && CloseQuote(s[1..]) == CloseQuote(t[1..])
    ensures NextQuiet(s, quiet) == NextQuiet(t, quiet)
  {
  }

  /** Before the hash, lines that differ in its digits are read alike. */
  lemma ReadAlike(x: string, h: string, g: string, y: string, quiet: nat)
    requires IsHash(h) && IsHash(g) && x != [] && quiet <= |x| + HASH_LENGTH + |y|
    ensures var s, t := x + (h + y), x + (g + y);
            && SymbolLength(s) == SymbolLength(t) && NextQuiet(s, quiet) == NextQuiet(t, quiet)
            && (StartsLabel(s, quiet) <==> StartsLabel(t, quiet))
  {
    SymbolAcross(x, h, y);
    SymbolAcross(x, g, y);
    SecondCharacter(x, h, y);
    SecondCharacter(x, g, y);
    QuoteAcross(x[1..], h, g, y);
    Slices(x, h + y, 1);
    Slices(x, g + y, 1);
    AlikeFromFacts(x + (h + y), x + (g + y), quiet);
  }

  lemma AlikeFromFacts(s: string, t: string, quiet: nat)
    requires |s| == |t| > 1 && s[0] == t[0] && s[1] == t[1] && quiet <= |s|
    requires SymbolLength(s) == SymbolLength(t) && CloseQuote(s[1..]) == CloseQuote(t[1..])
    ensures NextQuiet(s, quiet) == NextQuiet(t, quiet)
    ensures StartsLabel(s, quiet) <==> StartsLabel(t, quiet)
  {
    SameBeginning(s, t, SymbolLength(s));
    SameNext(s, t, quiet);
  }

  /** The item a line starts with, and the text and the reading that go on behind it. */
  lemma AlikeInFront(x: string, h: string, g: string, y: string, u: nat)
    requires IsHash(h) && IsHash(g) && x != "" && u <= |x| + HASH_LENGTH + |y|
    requires var s := x + (h + y); StartsLabel(s, u) ==> SymbolLength(s) <= |x|
    ensures var s, t := x + (h + y), x + (g + y);
            var n := if StartsLabel(s, u) then SymbolLength(s) else 1;
            && 0 < n <= |x| && Items(s, u) != [] && Items(t, u) != [] && Items(s, u)[0] == Items(t, u)[0]
            && NextText(s, u).0 == x[n..] + (h + y) && NextText(t, u).0 == x[n..] + (g + y)
            && NextText(s, u).1 == NextText(t, u).1 <= |x| - n + HASH_LENGTH + |y|
  {
    var s, t := x + (h + y), x + (g + y);
    ReadAlike(x, h, g, y, u);
    NextItems(s, u);
    NextItems(t, u);
    var n := if StartsLabel(s, u) then SymbolLength(s) else 1;
    Slices(x, h + y, n);
    Slices(x, g + y, n);
  }

  // ---------------------------------------------------------------- strings among the items

  /** Items that agree wherever one of them is a quote or a backslash. */
  predicate QuoteAlike(a: seq<Item>, b: seq<Item>) {
    |a| == |b| && forall i | 0 <= i < |a| :: a[i] == b[i] || !(IsQuoting(a[i]) || IsQuoting(b[i]))
  }

  predicate IsQuoting(item: Item) { item == Ch('"') || item == Ch('\\') }

  lemma {:induction false} CloseItemsAlike(a: seq<Item>, b: seq<Item>)
    requires QuoteAlike(a, b)
    ensures CloseItems(a) == CloseItems(b)
  {
    if a != [] {
      var step := if a[0] == Ch('\\') then 2 else 1;
      if |a| >= step {
        QuoteAlikeTail(a, b, step);
        CloseItemsAlike(a[step..], b[step..]);
      }
    }
  }

  lemma QuoteAlikeTail(a: seq<Item>, b: seq<Item>, n: nat)
    requires QuoteAlike(a, b) && n <= |a|
    ensures QuoteAlike(a[n..], b[n..])
  {
  }

  lemma QuoteAlikeJoin(a: seq<Item>, b: seq<Item>, c: seq<Item>, d: seq<Item>)
    requires QuoteAlike(a, b) && QuoteAlike(c, d)
    ensures QuoteAlike(a + c, b + d)
  {
  }

  lemma HashesQuoteAlike(h: string, g: string)
    requires IsHash(h) && IsHash(g)
    ensures QuoteAlike(Plain(h), Plain(g))
  {
    HashIsSymbol(h);
    HashIsSymbol(g);
    forall i | 0 <= i < HASH_LENGTH ensures !IsQuoting(Plain(h)[i]) && !IsQuoting(Plain(g)[i]) {
      SolidAt(h, i);
      SolidAt(g, i);
    }
  }

  lemma SolidAt(t: string, i: nat)
    requires Solid(t) && i < |t|
    ensures !IsQuoting(Ch(t[i]))
  {
  }

  lemma {:induction false} ItemsQuoteAlike(x: string, h: string, g: string, y: string, u: nat)
    requires IsHash(h) && IsHash(g) && u <= |x| + HASH_LENGTH + |y|
    ensures QuoteAlike(Items(x + (h + y), u), Items(x + (g + y), u))
    decreases |x|
  {
    var s, t := x + (h + y), x + (g + y);
    if x == "" {
      HashRead(h, y, u);
      HashRead(g, y, u);
      HashesQuoteAlike(h, g);
      QuoteAlikeJoin(Plain(h), Plain(g), Items(y, Beyond(HASH_LENGTH, y, u)), Items(y, Beyond(HASH_LENGTH, y, u)));
    } else if StartsLabel(s, u) && SymbolLength(s) > |x| {
      CoveredItems(x, h, g, y, u);
      var r := y[..SymbolLength(y)];
      InFront(Label(x + (h + r)), Label(x + (g + r)), Items(y[SymbolLength(y)..], 0));
    } else {
      AlikeInFront(x, h, g, y, u);
      var n := if StartsLabel(s, u) then SymbolLength(s) else 1;
      ItemsQuoteAlike(x[n..], h, g, y, NextText(s, u).1);
      NextItems(s, u);
      NextItems(t, u);
      QuoteAlikeFirst(Items(s, u), Items(t, u));
    }
  }

  lemma QuoteAlikeFirst(a: seq<Item>, b: seq<Item>)
    requires a != [] && b != [] && a[0] == b[0] && QuoteAlike(a[1..], b[1..])
    ensures QuoteAlike(a, b)
  {
    forall i | 0 <= i < |a| ensures a[i] == b[i] || !(IsQuoting(a[i]) || IsQuoting(b[i])) {
      if i > 0 {
        assert a[1..][i - 1] == a[i] && b[1..][i - 1] == b[i];
      }
    }
  }

  lemma HashRead(h: string, y: string, u: nat)
    requires IsHash(h) && u <= HASH_LENGTH + |y|
    ensures "" + (h + y) == h + y && Items(h + y, u) == Plain(h) + Items(y, Beyond(HASH_LENGTH, y, u))
  {
    HashIsSymbol(h);
    SolidRead(h, y, u);
  }

  /** A label that goes on into the hash takes all of it. */
  lemma CoveredItem(x: string, h: string, y: string, u: nat)
    requires IsHash(h) && x != "" && u <= |x| + HASH_LENGTH + |y|
    requires var s := x + (h + y); StartsLabel(s, u) && SymbolLength(s) > |x|
    ensures var k := SymbolLength(y);
            Items(x + (h + y), u) == [Label(x + (h + y[..k]))] + Items(y[k..], 0)
  {
    SymbolAcross(x, h, y);
    Regrouped(x, h, y, SymbolLength(y));
    CoveredLabel(x + (h + y), u, x + (h + y[..SymbolLength(y)]), y[SymbolLength(y)..]);
  }

  lemma CoveredLabel(s: string, u: nat, name: string, rest: string)
    requires u <= |s| && StartsLabel(s, u) && SymbolLength(s) == |name| && s == name + rest
    ensures Items(s, u) == [Label(name)] + Items(rest, 0)
  {
    LabelInFront(s, u, |name|);
  }

  lemma LabelInFront(s: string, u: nat, n: nat)
    requires u <= |s| && StartsLabel(s, u) && SymbolLength(s) == n
    ensures Items(s, u) == [Label(s[..n])] + Items(s[n..], 0)
  {
    FirstItem(s, u);
  }

  /** The two labels, with the same items behind them. */
  lemma CoveredItems(x: string, h: string, g: string, y: string, u: nat)
    requires IsHash(h) && IsHash(g) && x != "" && u <= |x| + HASH_LENGTH + |y|
    requires var s := x + (h + y); StartsLabel(s, u) && SymbolLength(s) > |x|
    ensures var k := SymbolLength(y);
            && Items(x + (h + y), u) == [Label(x + (h + y[..k]))] + Items(y[k..], 0)
            && Items(x + (g + y), u) == [Label(x + (g + y[..k]))] + Items(y[k..], 0)
  {
    SymbolAcross(x, h, y);
    SymbolAcross(x, g, y);
    ReadAlike(x, h, g, y, u);
    CoveredItem(x, h, y, u);
    CoveredItem(x, g, y, u);
  }

  lemma InFront(a: Item, b: Item, rest: seq<Item>)
    requires !IsQuoting(a) && !IsQuoting(b)
    ensures QuoteAlike([a] + rest, [b] + rest)
  {
  }

  lemma SameAround(x: string, h: string, g: string, r: string)
    requires |h| == |g|
    ensures x + (h + r) == x + (g + r) <==> h == g
  {
    assert (x + (h + r))[|x|..][..|h|] == h && (x + (g + r))[|x|..][..|g|] == g;
  }

  lemma Regrouped(x: string, h: string, y: string, k: nat)
    requires k <= |y|
    ensures x + (h + y) == x + (h + y[..k]) + y[k..]
  {
  }

  // ---------------------------------------------------------------- what shows of the digits

  /** The first w characters of the text are the first q items, and end in a quote if there are any. */
  predicate Inside(s: string, u: nat, q: nat, w: nat)
    requires u <= |s|
  {
    && q <= |Items(s, u)| && w == |Render(Items(s, u)[..q], Same)| <= |s|
    && (w > 0 ==> s[w - 1] == '"') && (w == 0 ==> q == 0)
  }

  lemma {:induction false} ReadBack(s: string, u: nat)
    requires u <= |s|
    ensures Render(Items(s, u), Same) == s
  {
    if s != "" {
      NextItems(s, u);
      var (z, v) := NextText(s, u);
      ReadBack(z, v);
      RenderOne(Items(s, u), Same);
      RenderCons(Items(s, u)[0], [], Same);
      assert Items(s, u)[..1] == [Items(s, u)[0]] + [];
      Halves(s, SymbolLength(s));
    }
  }

  lemma {:induction false} QuietFront(a: seq<Item>, b: seq<Item>, k: nat)
    requires k <= |b|
    ensures ErasedItems(a + b, |a| + k) == a + ErasedItems(b, k)
  {
    if a == [] {
      assert a + b == b;
    } else {
      Slices(a, b, 1);
      QuietFront(a[1..], b, k);
      assert [a[0]] + (a[1..] + ErasedItems(b, k)) == a + ErasedItems(b, k);
    }
  }

  lemma PlainHash(h: string)
    requires IsHash(h)
    ensures HashItems(Plain(h), 0) && |Plain(h)| == HASH_LENGTH && h[0] == '1' && h[1] == '7' && h[2] == 'h'
  {
    RenderPlain(h, Marked);
    HashRender(Plain(h), Marked, 0);
    assert h[1..][0] == '7' && h[1..][1..][0] == 'h';
  }

  /** Any text without strings and hashes will do for the labels that are not there. */
  function Marked(name: string): string { LocalMarker(0) }

  lemma {:induction false} HashItemsGrow(a: seq<Item>, b: seq<Item>, p: nat)
    requires p <= HASH_LENGTH && HashItems(a, p)
    ensures HashItems(a + b, p)
    decreases HASH_LENGTH - p
  {
    if p < HASH_LENGTH {
      Slices(a, b, 1);
      HashItemsGrow(a[1..], b, p + 1);
    }
  }

  lemma ErasedHere(h: string, b: seq<Item>)
    requires IsHash(h)
    ensures ErasedItems(Plain(h) + b, 0) == Plain(ERASED_HASH) + ErasedItems(b, 0)
  {
    PlainHash(h);
    HashItemsGrow(Plain(h), b, 0);
    assert (Plain(h) + b)[HASH_LENGTH..] == b;
    HashItemsErased(Plain(h) + b);
  }

  lemma SamePlain(h: string, g: string, r: seq<Item>, q: seq<Item>)
    requires |h| == |g| && Plain(h) + r == Plain(g) + q
    ensures h == g
  {
    forall i | 0 <= i < |h| ensures h[i] == g[i] {
      assert (Plain(h) + r)[i] == Ch(h[i]) && (Plain(g) + q)[i] == Ch(g[i]);
    }
  }

  lemma LongFront(h: string, b: seq<Item>, q: nat)
    requires q <= |Plain(h) + b| && |Render((Plain(h) + b)[..q], Same)| > |h|
    ensures q >= |h|
  {
    if q < |h| {
      assert (Plain(h) + b)[..q] == Plain(h[..q]);
      RenderPlain(h[..q], Same);
    }
  }

  lemma StringCovers(h: string, y: string, w: nat)
    requires IsHash(h) && 0 < w <= |h + y| && (h + y)[w - 1] == '"'
    ensures w > HASH_LENGTH
  {
    HashIsSymbol(h);
    SolidHasNoQuote(h);
  }

  lemma KeptOrErased(h: string, g: string, rest: seq<Item>, q: nat, w: nat)
    requires IsHash(h) && IsHash(g) && q <= HASH_LENGTH + |rest| && (w == 0 ==> q == 0) && (w > 0 ==> q >= HASH_LENGTH)
    ensures ErasedItems(Plain(h) + rest, q) == ErasedItems(Plain(g) + rest, q) <==> h == g || w == 0
  {
    if w == 0 {
      ErasedHere(h, rest);
      ErasedHere(g, rest);
    } else {
      var e := ErasedItems(rest, q - HASH_LENGTH);
      QuietFront(Plain(h), rest, q - HASH_LENGTH);
      QuietFront(Plain(g), rest, q - HASH_LENGTH);
      if Plain(h) + e == Plain(g) + e {
        SamePlain(h, g, e, e);
      }
    }
  }

  /** Reading the hash itself: it is erased outside strings and kept inside. */
  lemma HashDecides(h: string, g: string, y: string, u: nat, q: nat, w: nat)
    requires IsHash(h) && IsHash(g) && u <= HASH_LENGTH + |y|
    requires Inside(h + y, u, q, w) && q <= |Items(g + y, u)|
    ensures ErasedItems(Items(h + y, u), q) == ErasedItems(Items(g + y, u), q) <==> h == g || w == 0
  {
    HashRead(h, y, u);
    HashRead(g, y, u);
    var rest := Items(y, Beyond(HASH_LENGTH, y, u));
    if w > 0 {
      StringCovers(h, y, w);
      LongFront(h, rest, q);
    }
    KeptOrErased(h, g, rest, q, w);
  }

  /** A label that takes in the hash shows its digits. */
  lemma LabelDecides(x: string, h: string, g: string, y: string, u: nat, q: nat)
    requires IsHash(h) && IsHash(g) && x != "" && u <= |x| + HASH_LENGTH + |y|
    requires var s := x + (h + y); StartsLabel(s, u) && SymbolLength(s) > |x|
    requires q <= |Items(x + (h + y), u)| && q <= |Items(x + (g + y), u)|
    ensures ErasedItems(Items(x + (h + y), u), q) == ErasedItems(Items(x + (g + y), u), q) <==> h == g
  {
    CoveredItems(x, h, g, y, u);
    ErasedHead(Items(x + (h + y), u), q);
    ErasedHead(Items(x + (g + y), u), q);
    SameAround(x, h, g, y[..SymbolLength(y)]);
  }

  // ---------------------------------------------------------------- the rest of the line

  lemma {:induction false} OutsidePast(t: string, x: string, z: string)
    requires '"' !in t
    ensures Outside(t + x, z) <==> Outside(x, z)
  {
    if t == "" {
      assert t + x == x;
    } else {
      Slices(t, x, 1);
      OutsidePast(t[1..], x, z);
    }
  }

  /** Nothing that could be a label starts inside solid text. */
  lemma {:induction false} InLabelPast(t: string, x: string, z: string, u: nat)
    requires Solid(t) && u <= |t| + |x| + |z|
    ensures Beyond(|t|, x + z, u) <= |x| + |z| && (InLabel(t + x, z, u) <==> InLabel(x, z, Beyond(|t|, x + z, u)))
  {
    if t == "" {
      assert t + x == x;
    } else {
      Slices(t, x, 1);
      Grouped(t, x, z);
      SolidTail(t);
      Slices(t, x + z, 1);
      SolidNext(t, x + z, u);
      StartsNoLabel(t + (x + z), u);
      NoLabelHere(t + (x + z), u);
      InLabelPast(t[1..], x, z, NextQuiet(t + (x + z), u));
    }
  }

  lemma NoLabelHere(s: string, u: nat)
    requires s != "" && u <= |s| && s[0] != '.'
    ensures !StartsLabel(s, u)
  {
    if StartsLabel(s, u) {
      LocalStartsDotted(s[..SymbolLength(s)]);
    }
  }

  lemma Grouped<T>(a: seq<T>, b: seq<T>, c: seq<T>)
    ensures a + b + c == a + (b + c)
  {
  }

  /** A hash in the text is a hash among the items, wherever the reading is. */
  lemma HashIsRead(y: string, u: nat)
    requires u <= |y| && HashTail(y, 0)
    ensures HashItems(Items(y, u), 0)
  {
    HashFront(y, 0);
    HashIsSolid(y[..HASH_LENGTH], 0);
    Halves(y, HASH_LENGTH);
    SolidRead(y[..HASH_LENGTH], y[HASH_LENGTH..], u);
    PlainHash(y[..HASH_LENGTH]);
    HashItemsGrow(Plain(y[..HASH_LENGTH]), Items(y[HASH_LENGTH..], Beyond(HASH_LENGTH, y[HASH_LENGTH..], u)), 0);
  }

  /** Before the hash another one starts on both lines or on neither, and is all in front of it. */
  lemma HashBefore(x: string, h: string, y: string)
    requires IsHash(h) && x != ""
    ensures HashTail(x + (h + y), 0) <==> |x| >= HASH_LENGTH && HashTail(x, 0)
  {
    HashTailGrows(h, y, 0);
    if HashTail(x + (h + y), 0) {
      HashesDoNotOverlap(x, h + y, 0);
      HashTailLength(x, 0);
    }
    if HashTail(x, 0) {
      HashTailGrows(x, h + y, 0);
    }
  }

  lemma StartsHash(x: string, h: string, y: string, u: nat)
    requires IsHash(h) && x != "" && u <= |x| + HASH_LENGTH + |y|
    ensures HashItems(Items(x + (h + y), u), 0) <==> |x| >= HASH_LENGTH && HashTail(x, 0)
  {
    HashBefore(x, h, y);
    if HashItems(Items(x + (h + y), u), 0) {
      HashInText(x + (h + y), u, 0);
    }
    if HashTail(x + (h + y), 0) {
      HashIsRead(x + (h + y), u);
    }
  }

  // ---------------------------------------------------------------- exactly when the digits show

  /** The digits of a hash do not show: it stands outside strings and labels, or they are the same. */
  predicate Hidden(x: string, h: string, g: string, y: string, u: nat, w: nat)
    requires u <= |x| + |h + y|
  {
    h == g || (OutsideAt(x, h + y, w) && !InLabel(x, h + y, u))
  }

  lemma {:induction false} Decide(x: string, h: string, g: string, y: string, u: nat, q: nat, w: nat)
    requires IsHash(h) && IsHash(g) && u <= |x| + HASH_LENGTH + |y|
    requires Inside(x + (h + y), u, q, w) && q <= |Items(x + (g + y), u)|
    ensures ErasedItems(Items(x + (h + y), u), q) == ErasedItems(Items(x + (g + y), u), q) <==> Hidden(x, h, g, y, u, w)
    decreases |x|, 1
  {
    var s := x + (h + y);
    if x == "" {
      assert s == h + y && x + (g + y) == g + y;
      HashDecides(h, g, y, u, q, w);
    } else if StartsLabel(s, u) && SymbolLength(s) > |x| {
      LabelDecides(x, h, g, y, u, q);
    } else if q == 0 && |x| >= HASH_LENGTH && HashTail(x, 0) {
      DecideBehindHash(x, h, g, y, u, w);
    } else {
      DecideBehindItem(x, h, g, y, u, q, w);
    }
  }

  lemma Cancelled<T>(a: seq<T>, b: seq<T>, c: seq<T>)
    ensures a + b == a + c <==> b == c
  {
    assert (a + b)[|a|..] == b && (a + c)[|a|..] == c;
  }

  lemma SplitHash(x: string, h: string, y: string, u: nat)
    requires IsHash(h) && |x| >= HASH_LENGTH && HashTail(x, 0) && u <= |x| + HASH_LENGTH + |y|
    ensures var z := x[HASH_LENGTH..];
            var v := Beyond(HASH_LENGTH, z + (h + y), u);
            && v <= |z| + HASH_LENGTH + |y|
            && ErasedItems(Items(x + (h + y), u), 0) == Plain(ERASED_HASH) + ErasedItems(Items(z + (h + y), v), 0)
  {
    StartsHash(x, h, y, u);
    BehindHash(x + (h + y), u);
    Slices(x, h + y, HASH_LENGTH);
  }

  lemma SameBeyond(z: string, h: string, g: string, y: string, u: nat)
    requires IsHash(h) && IsHash(g) && u <= HASH_LENGTH + |z| + HASH_LENGTH + |y|
    ensures Beyond(HASH_LENGTH, z + (h + y), u) == Beyond(HASH_LENGTH, z + (g + y), u)
  {
    SymbolAcross(z, h, y);
    SymbolAcross(z, g, y);
  }

  lemma DecideBehindHash(x: string, h: string, g: string, y: string, u: nat, w: nat)
    requires IsHash(h) && IsHash(g) && u <= |x| + HASH_LENGTH + |y| && Inside(x + (h + y), u, 0, w)
    requires |x| >= HASH_LENGTH && HashTail(x, 0)
    ensures ErasedItems(Items(x + (h + y), u), 0) == ErasedItems(Items(x + (g + y), u), 0) <==> Hidden(x, h, g, y, u, w)
    decreases |x|, 0
  {
    var z := x[HASH_LENGTH..];
    var v := Beyond(HASH_LENGTH, z + (h + y), u);
    SplitHash(x, h, y, u);
    SplitHash(x, g, y, u);
    SameBeyond(z, h, g, y, u);
    Decide(z, h, g, y, v, 0, 0);
    Cancelled(Plain(ERASED_HASH), ErasedItems(Items(z + (h + y), v), 0), ErasedItems(Items(z + (g + y), v), 0));
    HiddenBehindHash(x, h, g, y, u);
  }

  lemma OutsideBehindHash(x: string, z: string)
    requires |x| >= HASH_LENGTH && HashTail(x, 0)
    ensures Outside(x, z) <==> Outside(x[HASH_LENGTH..], z)
  {
    SolidFront(x);
    SolidHasNoQuote(x[..HASH_LENGTH]);
    OutsidePast(x[..HASH_LENGTH], x[HASH_LENGTH..], z);
  }

  lemma SolidFront(x: string)
    requires HashTail(x, 0)
    ensures |x| >= HASH_LENGTH && Solid(x[..HASH_LENGTH]) && x == x[..HASH_LENGTH] + x[HASH_LENGTH..]
  {
    HashFront(x, 0);
    HashIsSolid(x[..HASH_LENGTH], 0);
    Halves(x, HASH_LENGTH);
  }

  lemma SolidHasNoQuote(t: string)
    requires Solid(t)
    ensures '"' !in t
  {
  }

  lemma InLabelBehindHash(x: string, z: string, u: nat)
    requires |x| >= HASH_LENGTH && HashTail(x, 0) && u <= |x| + |z|
    ensures var r := x[HASH_LENGTH..];
            var v := Beyond(HASH_LENGTH, r + z, u); v <= |r| + |z| && (InLabel(x, z, u) <==> InLabel(r, z, v))
  {
    SolidFront(x);
    InLabelBehindSolid(x, x[..HASH_LENGTH], x[HASH_LENGTH..], z, u);
  }

  lemma InLabelBehindSolid(x: string, t: string, r: string, z: string, u: nat)
    requires x == t + r && Solid(t) && u <= |x| + |z|
    ensures Beyond(|t|, r + z, u) <= |r| + |z| && (InLabel(x, z, u) <==> InLabel(r, z, Beyond(|t|, r + z, u)))
  {
    InLabelPast(t, r, z, u);
  }

  lemma HiddenBehindHash(x: string, h: string, g: string, y: string, u: nat)
    requires IsHash(h) && u <= |x| + HASH_LENGTH + |y| && |x| >= HASH_LENGTH && HashTail(x, 0)
    ensures var z := x[HASH_LENGTH..];
            var v := Beyond(HASH_LENGTH, z + (h + y), u);
            v <= |z| + |h + y| && (Hidden(x, h, g, y, u, 0) <==> Hidden(z, h, g, y, v, 0))
  {
    OutsideBehindHash(x, h + y);
    InLabelBehindHash(x, h + y, u);
    WholeText(x);
    WholeText(x[HASH_LENGTH..]);
  }

  lemma WholeText(x: string)
    ensures x[0..] == x
  {
  }

  lemma ItemIsWritten(s: string, u: nat)
    requires s != "" && u <= |s|
    ensures Items(s, u) != []
    ensures Render([Items(s, u)[0]], Same) == if StartsLabel(s, u) then s[..SymbolLength(s)] else [s[0]]
    ensures Render([Items(s, u)[0]], Same) != ""
  {
    NextItems(s, u);
    RenderCons(Items(s, u)[0], [], Same);
    assert [Items(s, u)[0]] + [] == [Items(s, u)[0]];
  }

  lemma {:induction false} ItemsAreWritten(s: string, u: nat, q: nat)
    requires u <= |s| && 0 < q <= |Items(s, u)|
    ensures Render(Items(s, u)[..q], Same) != ""
  {
    assert s != "";
    ItemIsWritten(s, u);
    assert Items(s, u)[..q] == [Items(s, u)[0]] + Items(s, u)[1..q];
    RenderAppend([Items(s, u)[0]], Items(s, u)[1..q], Same);
  }

  /** Where the string that the first w characters belong to goes on behind the first item. */
  function NextInside(s: string, u: nat, q: nat, w: nat): nat
    requires s != "" && u <= |s| && (q > 0 ==> w >= |Render([Items(s, u)[0]], Same)|)
  {
    if q > 0 then w - |Render([Items(s, u)[0]], Same)|
    else if Items(s, u)[0] == Ch('"') && CloseQuote(s[1..]).Some? then CloseQuote(s[1..]).value else 0
  }

  lemma FrontIsWritten(s: string, u: nat, q: nat)
    requires s != "" && u <= |s| && 0 < q <= |Items(s, u)|
    ensures Render(Items(s, u)[..q], Same) == Render([Items(s, u)[0]], Same) + Render(Items(s, u)[1..][..q - 1], Same)
  {
    var items := Items(s, u);
    assert items[..q] == [items[0]] + items[1..][..q - 1];
    RenderAppend([items[0]], items[1..][..q - 1], Same);
  }

  /** The front of the text that the first k items are. */
  lemma FrontOfText(s: string, u: nat, k: nat)
    requires u <= |s| && k <= |Items(s, u)|
    ensures |Render(Items(s, u)[..k], Same)| <= |s|
  {
    ReadBack(s, u);
    FrontIsShorter(Items(s, u), k);
  }

  lemma FrontIsShorter(items: seq<Item>, k: nat)
    requires k <= |items|
    ensures |Render(items[..k], Same)| <= |Render(items, Same)|
  {
    RenderAppend(items[..k], items[k..], Same);
    assert items == items[..k] + items[k..];
  }

  lemma WidthSplits(s: string, u: nat, q: nat)
    requires s != "" && u <= |s| && 0 < q <= |Items(s, u)|
    ensures var (z, v) := NextText(s, u);
            && v <= |z| && q - 1 <= |Items(z, v)|
            && |Render(Items(s, u)[..q], Same)|
               == |Render([Items(s, u)[0]], Same)| + |Render(Items(z, v)[..q - 1], Same)|
  {
    NextItems(s, u);
    FrontIsWritten(s, u, q);
  }

  lemma TextBehindItem(s: string, u: nat)
    requires s != "" && u <= |s|
    ensures Items(s, u) != []
    ensures var n := |Render([Items(s, u)[0]], Same)|; 0 < n <= |s| && NextText(s, u).0 == s[n..]
  {
    ItemIsWritten(s, u);
  }

  lemma InsideGoesOn(s: string, u: nat, q: nat, w: nat, z: string, v: nat)
    requires s != "" && u <= |s| && Inside(s, u, q, w) && q > 0 && NextText(s, u) == (z, v)
    ensures w >= |Render([Items(s, u)[0]], Same)|
    ensures v <= |z| && Inside(z, v, q - 1, w - |Render([Items(s, u)[0]], Same)|)
  {
    NextItems(s, u);
    WidthSplits(s, u, q);
    TextBehindItem(s, u);
    var n := |Render([Items(s, u)[0]], Same)|;
    CharacterBehind(s, n, w);
    InsideFrom(z, v, q - 1, w - n);
  }

  lemma InsideFrom(z: string, v: nat, k: nat, m: nat)
    requires v <= |z| && k <= |Items(z, v)| && m == |Render(Items(z, v)[..k], Same)|
    requires 0 < m <= |z| ==> z[m - 1] == '"'
    ensures Inside(z, v, k, m)
  {
    FrontOfText(z, v, k);
    if k > 0 {
      ItemsAreWritten(z, v, k);
    }
  }

  lemma CharacterBehind(s: string, n: nat, w: nat)
    requires n < w <= |s| || n == w <= |s|
    ensures n < w ==> s[n..][w - n - 1] == s[w - 1]
  {
  }

  lemma InsideStarts(s: string, u: nat)
    requires s != "" && u <= |s| && Items(s, u)[0] == Ch('"')
    ensures var (z, v) := NextText(s, u);
            && z == s[1..] && v <= |z| && (CloseItems(Items(z, v)).Some? <==> CloseQuote(z).Some?)
            && (CloseQuote(z).Some? ==> Inside(z, v, CloseItems(Items(z, v)).value, CloseQuote(z).value))
  {
    NextItems(s, u);
    var (z, v) := NextText(s, u);
    ReadBack(z, v);
    ItemsLabels(z, v);
    LabelsEscape(Items(z, v), Same);
    CloseRender(Items(z, v), Same);
    if CloseQuote(z).Some? {
      CloseQuoteEnds(z);
    }
  }

  /** The reading of strings behind the first item, if it starts no hash. */
  lemma InsideNext(s: string, u: nat, q: nat, w: nat)
    requires s != "" && u <= |s| && Inside(s, u, q, w)
    ensures q > 0 ==> w >= |Render([Items(s, u)[0]], Same)|
    ensures var (z, v) := NextText(s, u);
            v <= |z| && Items(s, u) != [] && Inside(z, v, NextErased(Items(s, u), q), NextInside(s, u, q, w))
  {
    NextItems(s, u);
    if q > 0 {
      InsideGoesOn(s, u, q, w, NextText(s, u).0, NextText(s, u).1);
    } else if Items(s, u)[0] == Ch('"') {
      InsideStarts(s, u);
    }
  }

  lemma SameErasing(x: string, h: string, g: string, y: string, u: nat, q: nat)
    requires IsHash(h) && IsHash(g) && x != "" && u <= |x| + HASH_LENGTH + |y|
    requires var s := x + (h + y); StartsLabel(s, u) ==> SymbolLength(s) <= |x|
    requires q <= |Items(x + (h + y), u)| && q <= |Items(x + (g + y), u)|
    ensures Items(x + (h + y), u) != [] && Items(x + (g + y), u) != []
    ensures NextErased(Items(x + (h + y), u), q) == NextErased(Items(x + (g + y), u), q)
  {
    AlikeInFront(x, h, g, y, u);
    ItemsQuoteAlike(x, h, g, y, u);
    QuoteAlikeTail(Items(x + (h + y), u), Items(x + (g + y), u), 1);
    CloseItemsAlike(Items(x + (h + y), u)[1..], Items(x + (g + y), u)[1..]);
  }

  /** How much of the text the first item is. */
  function FirstLength(s: string, u: nat): nat
    requires s != "" && u <= |s|
  {
    if StartsLabel(s, u) then SymbolLength(s) else 1
  }

  lemma InLabelBehindItem(x: string, z: string, u: nat)
    requires x != "" && u <= |x + z| && FirstLength(x + z, u) <= |x|
    ensures var (n, v) := (FirstLength(x + z, u), NextText(x + z, u).1);
            n > 0 && v <= |x| - n + |z| && (InLabel(x, z, u) <==> InLabel(x[n..], z, v))
  {
    NextItems(x + z, u);
    Slices(x, z, FirstLength(x + z, u));
  }

  lemma OutsideBehindItem(x: string, z: string, u: nat, q: nat, w: nat)
    requires x != "" && u <= |x + z| && FirstLength(x + z, u) <= |x|
    requires w == 0 <==> q == 0
    requires q > 0 ==> w >= |Render([Items(x + z, u)[0]], Same)|
    ensures OutsideAt(x, z, w) <==> OutsideAt(x[FirstLength(x + z, u)..], z, NextInside(x + z, u, q, w))
  {
    var n := FirstLength(x + z, u);
    ItemIsWritten(x + z, u);
    NextItems(x + z, u);
    if q > 0 {
      assert w <= |x| ==> x[n..][w - n..] == x[w..];
    } else {
      WholeText(x);
      OutsideStarts(x, z, u);
    }
  }

  lemma OutsideStarts(x: string, z: string, u: nat)
    requires x != "" && u <= |x + z| && FirstLength(x + z, u) <= |x|
    ensures Outside(x, z) <==> OutsideAt(x[FirstLength(x + z, u)..], z, NextInside(x + z, u, 0, 0))
  {
    var n := FirstLength(x + z, u);
    NextItems(x + z, u);
    Slices(x, z, 1);
    WholeText(x[n..]);
    if StartsLabel(x + z, u) {
      LabelHasNoQuote(x + z, u);
      Halves(x, n);
      Slices(x, z, n);
      OutsidePast(x[..n], x[n..], z);
    } else {
      QuoteOutside(x, z);
    }
  }

  lemma QuoteOutside(x: string, z: string)
    requires x != ""
    ensures var w := if x[0] == '"' && CloseQuote(x[1..] + z).Some? then CloseQuote(x[1..] + z).value else 0;
            Outside(x, z) <==> OutsideAt(x[1..], z, w)
  {
    WholeText(x[1..]);
    if x[0] == '"' && CloseQuote(x[1..] + z).Some? {
      var w := CloseQuote(x[1..] + z).value;
      assert w <= |x| - 1 ==> x[1..][w..] == x[1 + w..];
    }
  }

  lemma HiddenBehindItem(x: string, h: string, g: string, y: string, u: nat, q: nat, w: nat)
    requires x != "" && u <= |x + (h + y)| && FirstLength(x + (h + y), u) <= |x|
    requires (w == 0 <==> q == 0) && (q > 0 ==> w >= |Render([Items(x + (h + y), u)[0]], Same)|)
    ensures var s := x + (h + y);
            var n, v := FirstLength(s, u), NextText(s, u).1;
            v <= |x| - n + |h + y| && (Hidden(x, h, g, y, u, w) <==> Hidden(x[n..], h, g, y, v, NextInside(s, u, q, w)))
  {
    InLabelBehindItem(x, h + y, u);
    OutsideBehindItem(x, h + y, u, q, w);
  }

  lemma LabelHasNoQuote(s: string, u: nat)
    requires s != "" && u <= |s| && StartsLabel(s, u)
    ensures '"' !in s[..SymbolLength(s)]
  {
    var n := SymbolLength(s);
    forall i | 0 <= i < n ensures s[..n][i] != '"' {
      assert SymbolPart(s[i]);
    }
  }

  lemma DecideBehindItem(x: string, h: string, g: string, y: string, u: nat, q: nat, w: nat)
    requires IsHash(h) && IsHash(g) && x != "" && u <= |x| + HASH_LENGTH + |y|
    requires Inside(x + (h + y), u, q, w) && q <= |Items(x + (g + y), u)|
    requires var s := x + (h + y); StartsLabel(s, u) ==> SymbolLength(s) <= |x|
    requires !(q == 0 && |x| >= HASH_LENGTH && HashTail(x, 0))
    ensures ErasedItems(Items(x + (h + y), u), q) == ErasedItems(Items(x + (g + y), u), q) <==> Hidden(x, h, g, y, u, w)
    decreases |x|, 0
  {
    var s, t := x + (h + y), x + (g + y);
    var n, v := FirstLength(s, u), NextText(s, u).1;
    AlikeInFront(x, h, g, y, u);
    InsideNext(s, u, q, w);
    InsideBoth(s, u, q, w);
    HiddenBehindItem(x, h, g, y, u, q, w);
    SameErasing(x, h, g, y, u, q);
    var k := NextErased(Items(s, u), q);
    ErasedBehindItem(x, h, y, u, q);
    ErasedBehindItem(x, g, y, u, q);
    ItemsQuoteAlike(x[n..], h, g, y, v);
    Decide(x[n..], h, g, y, v, k, NextInside(s, u, q, w));
    Cancelled([Items(s, u)[0]], ErasedItems(Items(x[n..] + (h + y), v), k), ErasedItems(Items(x[n..] + (g + y), v), k));
  }

  lemma InsideBoth(s: string, u: nat, q: nat, w: nat)
    requires u <= |s| && Inside(s, u, q, w)
    ensures w == 0 <==> q == 0
  {
  }

  lemma ErasedBehindItem(x: string, h: string, y: string, u: nat, q: nat)
    requires IsHash(h) && x != "" && u <= |x| + HASH_LENGTH + |y| && q <= |Items(x + (h + y), u)|
    requires !(q == 0 && |x| >= HASH_LENGTH && HashTail(x, 0))
    ensures var s := x + (h + y);
            && Items(s, u) != []
            && var (z, v) := NextText(s, u);
               && v <= |z| && NextErased(Items(s, u), q) <= |Items(z, v)|
               && ErasedItems(Items(s, u), q) == [Items(s, u)[0]] + ErasedItems(Items(z, v), NextErased(Items(s, u), q))
  {
    StartsHash(x, h, y, u);
    NextItems(x + (h + y), u);
    FirstErased(Items(x + (h + y), u), q);
  }

  /** What a line says shows the digits of a hash exactly inside strings that the line closes and inside local
      labels: only there do different digits make a difference. */
  lemma DigitsShowExactly(x: string, h: string, g: string, y: string)
    requires IsHash(h) && IsHash(g)
    ensures Content(x + (h + y)) == Content(x + (g + y)) <==> h == g || (Outside(x, h + y) && !InLabel(x, h + y, 0))
  {
    assert Items(x + (h + y), 0)[..0] == [] && x[0..] == x;
    Decide(x, h, g, y, 0, 0, 0);
  }

  // ---------------------------------------------------------------- the same for text without labels

  lemma ErasedHash(h: string, y: string)
    requires IsHash(h)
    ensures Erased(h + y, 0) == ERASED_HASH + Erased(y, 0)
  {
    HashTailGrows(h, y, 0);
    assert (h + y)[HASH_LENGTH..] == y;
    HashErased(h + y, y);
  }

  lemma SameBefore<T>(a: seq<T>, b: seq<T>, c: seq<T>)
    requires |a| == |b|
    ensures a + c == b + c <==> a == b
  {
    assert (a + c)[..|a|] == a && (b + c)[..|b|] == b;
  }

  lemma KeptInside(h: string, y: string, w: nat)
    requires IsHash(h) && HASH_LENGTH <= w <= |h + y|
    ensures Erased(h + y, w) == h + Erased(y, w - HASH_LENGTH)
  {
    QuietSkips(h, y, w - HASH_LENGTH);
  }

  lemma HashKeptOrErased(h: string, g: string, y: string, w: nat)
    requires IsHash(h) && IsHash(g) && w <= |h + y| && (w > 0 ==> (h + y)[w - 1] == '"')
    ensures Erased(h + y, w) == Erased(g + y, w) <==> h == g || w == 0
  {
    if w == 0 {
      ErasedHash(h, y);
      ErasedHash(g, y);
    } else {
      StringCovers(h, y, w);
      KeptInside(h, y, w);
      KeptInside(g, y, w);
      SameBefore(h, g, Erased(y, w - HASH_LENGTH));
    }
  }

  /** Where a string that starts with the first character ends. */
  function NextQuoted(s: string, w: nat): nat
    requires s != ""
  {
    if w > 0 then w - 1 else if s[0] == '"' && CloseQuote(s[1..]).Some? then CloseQuote(s[1..]).value else 0
  }

  lemma FirstCharErased(s: string, w: nat)
    requires s != "" && w <= |s| && (w == 0 ==> !HashTail(s, 0))
    ensures NextQuoted(s, w) <= |s| - 1 && Erased(s, w) == [s[0]] + Erased(s[1..], NextQuoted(s, w))
  {
  }

  lemma SameQuoted(x: string, h: string, g: string, y: string, w: nat)
    requires IsHash(h) && IsHash(g) && x != ""
    ensures NextQuoted(x + (h + y), w) == NextQuoted(x + (g + y), w)
  {
    Slices(x, h + y, 1);
    Slices(x, g + y, 1);
    QuoteAcross(x[1..], h, g, y);
  }

  lemma OutsideBehindChar(x: string, z: string, w: nat)
    requires x != ""
    ensures OutsideAt(x, z, w) <==> OutsideAt(x[1..], z, NextQuoted(x + z, w))
  {
    Slices(x, z, 1);
    if w > 0 {
      assert w <= |x| ==> x[1..][w - 1..] == x[w..];
    } else {
      WholeText(x);
      QuoteOutside(x, z);
    }
  }

  lemma QuotedEnds(s: string, w: nat)
    requires s != "" && w <= |s| && (w > 0 ==> s[w - 1] == '"')
    ensures var v := NextQuoted(s, w); v <= |s| - 1 && (v > 0 ==> s[1..][v - 1] == '"')
  {
    if w == 0 && CloseQuote(s[1..]).Some? {
      CloseQuoteEnds(s[1..]);
    }
  }

  lemma {:induction false} DecideText(x: string, h: string, g: string, y: string, w: nat)
    requires IsHash(h) && IsHash(g) && w <= |x + (h + y)| && (w > 0 ==> (x + (h + y))[w - 1] == '"')
    ensures Erased(x + (h + y), w) == Erased(x + (g + y), w) <==> h == g || OutsideAt(x, h + y, w)
    decreases |x|, 1
  {
    if x == "" {
      assert "" + (h + y) == h + y && "" + (g + y) == g + y;
      HashKeptOrErased(h, g, y, w);
    } else if w == 0 && |x| >= HASH_LENGTH && HashTail(x, 0) {
      DecideTextBehindHash(x, h, g, y);
    } else {
      DecideTextBehindChar(x, h, g, y, w);
    }
  }

  lemma ErasedBehindHash(x: string, z: string)
    requires |x| >= HASH_LENGTH && HashTail(x, 0)
    ensures Erased(x + z, 0) == ERASED_HASH + Erased(x[HASH_LENGTH..] + z, 0)
  {
    HashTailGrows(x, z, 0);
    Slices(x, z, HASH_LENGTH);
    HashErased(x + z, x[HASH_LENGTH..] + z);
  }

  lemma DecideTextBehindHash(x: string, h: string, g: string, y: string)
    requires IsHash(h) && IsHash(g) && |x| >= HASH_LENGTH && HashTail(x, 0)
    ensures Erased(x + (h + y), 0) == Erased(x + (g + y), 0) <==> h == g || OutsideAt(x, h + y, 0)
    decreases |x|, 0
  {
    var z := x[HASH_LENGTH..];
    DecideText(z, h, g, y, 0);
    ErasedBehindHash(x, h + y);
    ErasedBehindHash(x, g + y);
    Cancelled(ERASED_HASH, Erased(z + (h + y), 0), Erased(z + (g + y), 0));
    OutsideBehindHash(x, h + y);
    WholeText(x);
    WholeText(z);
  }

  lemma ErasedBehindChar(x: string, h: string, y: string, w: nat)
    requires IsHash(h) && x != "" && w <= |x + (h + y)| && !(w == 0 && |x| >= HASH_LENGTH && HashTail(x, 0))
    ensures var v := NextQuoted(x + (h + y), w);
            v <= |x[1..] + (h + y)| && Erased(x + (h + y), w) == [x[0]] + Erased(x[1..] + (h + y), v)
  {
    HashBefore(x, h, y);
    Slices(x, h + y, 1);
    FirstCharErased(x + (h + y), w);
  }

  lemma DecideTextBehindChar(x: string, h: string, g: string, y: string, w: nat)
    requires IsHash(h) && IsHash(g) && x != "" && w <= |x + (h + y)| && (w > 0 ==> (x + (h + y))[w - 1] == '"')
    requires !(w == 0 && |x| >= HASH_LENGTH && HashTail(x, 0))
    ensures Erased(x + (h + y), w) == Erased(x + (g + y), w) <==> h == g || OutsideAt(x, h + y, w)
    decreases |x|, 0
  {
    var v := NextQuoted(x + (h + y), w);
    Slices(x, h + y, 1);
    QuotedEnds(x + (h + y), w);
    SameQuoted(x, h, g, y, w);
    ErasedBehindChar(x, h, y, w);
    ErasedBehindChar(x, g, y, w);
    OutsideBehindChar(x, h + y, w);
    DecideText(x[1..], h, g, y, v);
    Cancelled([x[0]], Erased(x[1..] + (h + y), v), Erased(x[1..] + (g + y), v));
  }

  /** Erasing hashes in a text leaves the digits of one standing exactly inside strings that the text closes. */
  lemma TextShowsExactly(x: string, h: string, g: string, y: string)
    requires IsHash(h) && IsHash(g)
    ensures NormalizeHashes(x + (h + y)) == NormalizeHashes(x + (g + y)) <==> h == g || Outside(x, h + y)
  {
    DecideText(x, h, g, y, 0);
    WholeText(x);
  }

  // ---------------------------------------------------------------- edits of a text

  predicate HashSwapped(s: string, t: string, x: string, h: string, g: string, y: string) {
    s == x + (h + y) && t == x + (g + y) && IsHash(h) && IsHash(g)
  }

  /** One hash outside strings got other digits. */
  ghost predicate TextEdit(s: string, t: string) {
    exists x, h, g, y :: HashSwapped(s, t, x, h, g, y) && Outside(x, h + y)
  }

  /** In a line the hash must not be part of a local label, either. */
  ghost predicate LineEdit(s: string, t: string) {
    exists x, h, g, y :: HashSwapped(s, t, x, h, g, y) && Outside(x, h + y) && !InLabel(x, h + y, 0)
  }

  type Edit = (string, string) -> bool

  /** n edits of a kind, one after the other. */
  ghost predicate Edits(edit: Edit, s: string, t: string, n: nat)
    decreases n
  {
    if n == 0 then s == t else exists r :: edit(s, r) && Edits(edit, r, t, n - 1)
  }

  /** The same but for the digits of hashes. */
  ghost predicate TextRehashed(s: string, t: string) { exists n :: Edits(TextEdit, s, t, n) }

  ghost predicate LineRehashed(s: string, t: string) { exists n :: Edits(LineEdit, s, t, n) }

  /** What one edit does not change, any number of edits does not change. */
  lemma {:induction false} EditsKeep<V>(edit: Edit, view: string -> V, s: string, t: string, n: nat)
    requires Edits(edit, s, t, n) && forall a, b :: edit(a, b) ==> view(a) == view(b)
    ensures view(s) == view(t)
    decreases n
  {
    if n > 0 {
      var r :| edit(s, r) && Edits(edit, r, t, n - 1);
      EditsKeep(edit, view, r, t, n - 1);
    }
  }

  lemma LineEditKeepsContent(s: string, t: string)
    requires LineEdit(s, t)
    ensures Content(s) == Content(t)
  {
    var x, h, g, y :| HashSwapped(s, t, x, h, g, y) && Outside(x, h + y) && !InLabel(x, h + y, 0);
    DigitsShowExactly(x, h, g, y);
  }

  lemma RehashedLineContent(s: string, t: string)
    requires LineRehashed(s, t)
    ensures Content(s) == Content(t)
  {
    var n :| Edits(LineEdit, s, t, n);
    forall a, b | LineEdit(a, b) ensures Content(a) == Content(b) {
      LineEditKeepsContent(a, b);
    }
    EditsKeep(LineEdit, Content, s, t, n);
  }

  lemma TrimLeftAround(x: string, h: string, z: string)
    requires h != [] && !IsSpace(h[0])
    ensures TrimLeft(x + (h + z)) == TrimLeft(x) + (h + z)
  {
    if x == [] {
      assert x + (h + z) == h + z;
    } else {
      assert (x + (h + z))[1..] == x[1..] + (h + z);
    }
  }

  lemma {:induction false} TrimRightAround(x: string, z: string)
    requires x != [] && !IsSpace(Last(x))
    ensures TrimRight(x + z) == x + TrimRight(z)
  {
    if z == [] {
      assert x + z == x;
    } else {
      assert Last(x + z) == Last(z) && (x + z)[..|x + z| - 1] == x + z[..|z| - 1];
      TrimRightAround(x, z[..|z| - 1]);
    }
  }

  lemma SymbolIsNoBlank(c: char)
    requires SymbolPart(c)
    ensures !IsSpace(c)
  {
  }

  lemma HashHasNoBlanks(h: string)
    requires IsHash(h)
    ensures !IsSpace(h[0]) && !IsSpace(h[HASH_LENGTH - 1])
  {
    HashIsSymbol(h);
    SymbolIsNoBlank(h[0]);
    SymbolIsNoBlank(h[HASH_LENGTH - 1]);
  }

  lemma Regroup<T>(a: seq<T>, b: seq<T>, c: seq<T>)
    ensures a + (b + c) == a + b + c
  {
  }

  lemma StripAround(x: string, h: string, y: string)
    requires IsHash(h)
    ensures Strip(x + (h + y)) == TrimLeft(x) + (h + TrimRight(y))
  {
    HashHasNoBlanks(h);
    TrimLeftAround(x, h, y);
    Regroup(TrimLeft(x), h, y);
    LastOf(TrimLeft(x), h);
    TrimRightAround(TrimLeft(x) + h, y);
    Regroup(TrimLeft(x), h, TrimRight(y));
  }

  lemma LastOf<T>(a: seq<T>, b: seq<T>)
    requires b != []
    ensures Last(a + b) == b[|b| - 1]
  {
  }

  lemma TextEditShowsNot(s: string, t: string)
    requires TextEdit(s, t)
    ensures NormalizeHashes(s) == NormalizeHashes(t)
  {
    var x, h, g, y :| HashSwapped(s, t, x, h, g, y) && Outside(x, h + y);
    TextShowsExactly(x, h, g, y);
  }

  // ---------------------------------------------------------------- edits and blanks

  lemma BlankHasNoQuote(l: string)
    requires Blank(l)
    ensures '"' !in l
  {
    forall i | 0 <= i < |l| ensures l[i] != '"' {
      SpaceIsPlain(l[i]);
    }
  }

  lemma {:induction false} OutsideBeforeBlanks(x: string, z: string, r: string)
    requires Blank(r)
    ensures Outside(x, z + r) <==> Outside(x, z)
    decreases |x|
  {
    if x != "" {
      CloseBeforeBlanks(x[1..] + z, r);
      Regroup(x[1..], z, r);
      OutsideBeforeBlanks(x[1..], z, r);
      if x[0] == '"' && CloseQuote(x[1..] + z).Some? && CloseQuote(x[1..] + z).value < |x| {
        OutsideBeforeBlanks(x[1 + CloseQuote(x[1..] + z).value..], z, r);
      }
    }
  }

  lemma {:induction false} InLabelBeforeBlanks(x: string, z: string, r: string, u: nat)
    requires Blank(r) && u <= |x| + |z| + |r|
    ensures InLabel(x, z + r, u) <==> InLabel(x, z, Least(u, |x| + |z|))
    decreases |x|
  {
    if x != "" {
      var s := x + z;
      Regroup(x, z, r);
      StartsBeforeBlanks(s, r, u);
      if StartsLabel(s + r, u) {
        if SymbolLength(s) <= |x| {
          InLabelBeforeBlanks(x[SymbolLength(s)..], z, r, 0);
        }
      } else {
        NextBeforeBlanks(s, r, u);
        InLabelBeforeBlanks(x[1..], z, r, NextQuiet(s + r, u));
      }
    }
  }

  lemma {:induction false} InLabelBehindBlanks(l: string, x: string, z: string)
    requires Blank(l)
    ensures InLabel(l + x, z, 0) <==> InLabel(x, z, 0)
  {
    if l == "" {
      assert l + x == x;
    } else {
      BlankTail(l);
      SpaceIsPlain(l[0]);
      Slices(l, x, 1);
      assert (l + x + z)[0] == l[0];
      NoLabelHere(l + x + z, 0);
      InLabelBehindBlanks(l[1..], x, z);
    }
  }

  /** Blanks around a line make no difference to where its hashes stand. */
  lemma EditBetweenBlanks(x: string, h: string, y: string)
    requires IsHash(h)
    ensures Outside(x, h + y) <==> Outside(TrimLeft(x), h + TrimRight(y))
    ensures InLabel(x, h + y, 0) <==> InLabel(TrimLeft(x), h + TrimRight(y), 0)
  {
    var l := LeftBlanks(x);
    var r := RightBlanks(y);
    BlankHasNoQuote(l);
    OutsidePast(l, TrimLeft(x), h + y);
    InLabelBehindBlanks(l, TrimLeft(x), h + y);
    Regroup(h, TrimRight(y), r);
    OutsideBeforeBlanks(TrimLeft(x), h + TrimRight(y), r);
    InLabelBeforeBlanks(TrimLeft(x), h + TrimRight(y), r, 0);
  }

  /** Stripping blanks and editing a hash commute. */
  lemma StrippedTextEdit(s: string, t: string)
    requires TextEdit(s, t)
    ensures TextEdit(Strip(s), Strip(t))
  {
    var x, h, g, y :| HashSwapped(s, t, x, h, g, y) && Outside(x, h + y);
    StripAround(x, h, y);
    StripAround(x, g, y);
    EditBetweenBlanks(x, h, y);
    assert HashSwapped(Strip(s), Strip(t), TrimLeft(x), h, g, TrimRight(y));
  }

  lemma StrippedLineEdit(s: string, t: string)
    requires LineEdit(s, t)
    ensures LineEdit(Strip(s), Strip(t))
  {
    var x, h, g, y :| HashSwapped(s, t, x, h, g, y) && Outside(x, h + y) && !InLabel(x, h + y, 0);
    StripAround(x, h, y);
    StripAround(x, g, y);
    EditBetweenBlanks(x, h, y);
    assert HashSwapped(Strip(s), Strip(t), TrimLeft(x), h, g, TrimRight(y));
  }

  function Shown(attrs: string): string { NormalizeHashes(Strip(attrs)) }

  lemma RehashedAttributesShowNot(s: string, t: string)
    requires TextRehashed(s, t)
    ensures Shown(s) == Shown(t)
  {
    var n :| Edits(TextEdit, s, t, n);
    forall a, b | TextEdit(a, b) ensures Shown(a) == Shown(b) {
      StrippedTextEdit(a, b);
      TextEditShowsNot(Strip(a), Strip(b));
    }
    EditsKeep(TextEdit, Shown, s, t, n);
  }

  lemma {:induction false} NoQuotesNoStrings(s: string)
    requires '"' !in s
    ensures NormalizeHashes(s) == EraseAll(s)
    decreases |s|
  {
    if s != [] {
      if HashTail(s, 0) {
        HashTailLength(s, 0);
        NoQuotesNoStrings(s[HASH_LENGTH..]);
      } else {
        NoQuotesNoStrings(s[1..]);
      }
    }
  }

  predicate Quoted(s: string) { '"' in s }

  lemma Unquoted(x: string, h: string, y: string)
    ensures Quoted(x + (h + y)) <==> Quoted(x) || Quoted(h) || Quoted(y)
  {
  }

  lemma HashIsUnquoted(h: string)
    requires IsHash(h)
    ensures !Quoted(h)
  {
    HashIsSymbol(h);
    SolidHasNoQuote(h);
  }

  lemma EditKeepsQuotes(s: string, t: string)
    requires TextEdit(s, t)
    ensures Quoted(s) <==> Quoted(t)
  {
    var x, h, g, y :| HashSwapped(s, t, x, h, g, y) && Outside(x, h + y);
    HashIsUnquoted(h);
    HashIsUnquoted(g);
    Unquoted(x, h, y);
    Unquoted(x, g, y);
  }

  lemma RehashedName(s: string, t: string)
    requires TextRehashed(s, t) && '"' !in s
    ensures EraseAll(s) == EraseAll(t) && '"' !in t
  {
    var n :| Edits(TextEdit, s, t, n);
    forall a, b | TextEdit(a, b) ensures Quoted(a) <==> Quoted(b) {
      EditKeepsQuotes(a, b);
    }
    EditsKeep(TextEdit, Quoted, s, t, n);
    forall a, b | TextEdit(a, b) ensures NormalizeHashes(a) == NormalizeHashes(b) {
      TextEditShowsNot(a, b);
    }
    EditsKeep(TextEdit, NormalizeHashes, s, t, n);
    assert Quoted(s) <==> Quoted(t);
    NoQuotesNoStrings(s);
    NoQuotesNoStrings(t);
  }

  // ---------------------------------------------------------------- edits of a listing

  ghost predicate SectionRehashed(s: Section, t: Section) {
    && TextRehashed(s.name, t.name) && TextRehashed(s.attrs, t.attrs)
    && |s.lines| == |t.lines| && forall p | 0 <= p < |s.lines| :: LineRehashed(s.lines[p], t.lines[p])
  }

  ghost predicate ListingRehashed(F: seq<Section>, G: seq<Section>) {
    |F| == |G| && forall i | 0 <= i < |F| :: SectionRehashed(F[i], G[i])
  }

  lemma RehashedSection(s: Section, t: Section)
    requires SectionRehashed(s, t) && '"' !in s.name
    ensures SectionsSameButHashes(s, t) && '"' !in t.name
  {
    RehashedName(s.name, t.name);
    RehashedAttributesShowNot(s.attrs, t.attrs);
    forall p | 0 <= p < |s.lines| ensures Content(s.lines[p]) == Content(t.lines[p]) {
      RehashedLineContent(s.lines[p], t.lines[p]);
    }
  }

  /** Any number of hashes of a listing may get other digits, in section names, in attributes and lines
      outside strings, and outside local labels: the verdict and the output stay the same. */
  lemma RehashedListingsAgree(F: seq<Section>, G: seq<Section>)
    requires ListingRehashed(F, G) && ProperNames(F)
    ensures Accepted(F) <==> Accepted(G)
    ensures Accepted(F) ==> Outcome(F) == Outcome(G)
  {
    forall i | 0 <= i < |F| ensures SectionsSameButHashes(F[i], G[i]) && '"' !in G[i].name {
      assert SectionRehashed(F[i], G[i]);
      RehashedSection(F[i], G[i]);
    }
    HashesDoNotMatter(F, G);
  }
}
