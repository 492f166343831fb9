/** When two canonical lines with the same text say the same: the only danger is a label mark that, together
    with the text behind it, begins like a longer mark. */
module AsmReading {
  import opened Protocol
  import opened Decimal
  import opened AsmText
  import opened AsmMarkers
  import opened AsmContent

  // ---------------------------------------------------------------- two renderings with the same text

  predicate StartsMark(t: string) { StartsWith(t, "__LAB") || StartsWith(t, "__REF") }

  lemma StartsAt(t: string, m: string, k: nat)
    requires StartsWith(t, m) && k < |m|
    ensures k < |t| && t[k] == m[k]
  {
    assert t[..|m|][k] == t[k];
  }

  lemma DiffersAt(t: string, m: string, k: nat)
    requires k < |m| && (k < |t| ==> t[k] != m[k])
    ensures !StartsWith(t, m)
  {
    if StartsWith(t, m) {
      StartsAt(t, m, k);
    }
  }

  predicate AllMarks(items: seq<Item>, text: string -> string) {
    forall i | 0 <= i < |items| && items[i].Label? :: StartsMark(text(items[i].name))
  }

  /** The mark and the text behind it begin like a longer mark. */
  predicate RunsOn(mark: string, behind: string, longer: string) {
    |longer| > |mark| && StartsWith(mark + behind, longer)
  }

  /** No label of the first items runs on into a label of the second. */
  predicate NeverRunsOn(s: seq<Item>, f: string -> string, t: seq<Item>, g: string -> string) {
    forall k, m | 0 <= k < |s| && 0 <= m < |t| && s[k].Label? && t[m].Label? ::
      !RunsOn(f(s[k].name), Render(s[k + 1..], f), g(t[m].name))
  }

  /** The same characters, and labels with the same text in the same places. */
  predicate SameItem(a: Item, f: string -> string, b: Item, g: string -> string) {
    if a.Ch? then b == a else b.Label? && f(a.name) == g(b.name)
  }

  predicate SameItems(s: seq<Item>, f: string -> string, t: seq<Item>, g: string -> string) {
    |s| == |t| && forall k | 0 <= k < |s| :: SameItem(s[k], f, t[k], g)
  }

  lemma NeverRunsOnLater(s: seq<Item>, f: string -> string, t: seq<Item>, g: string -> string)
    requires NeverRunsOn(s, f, t, g) && s != [] && t != []
    ensures NeverRunsOn(s[1..], f, t[1..], g)
  {
    forall k, m | 0 <= k < |s| - 1 && 0 <= m < |t| - 1 && s[1..][k].Label? && t[1..][m].Label?
      ensures !RunsOn(f(s[1..][k].name), Render(s[1..][k + 1..], f), g(t[1..][m].name))
    {
      assert s[1..][k] == s[k + 1] && t[1..][m] == t[m + 1] && s[1..][k + 1..] == s[k + 2..];
      assert !RunsOn(f(s[k + 1].name), Render(s[k + 2..], f), g(t[m + 1].name));
    }
  }

  lemma MarksAhead(items: seq<Item>, text: string -> string)
    requires AllMarks(items, text) && items != []
    ensures AllMarks(items[1..], text)
    ensures items[0].Label? ==> StartsMark(Render(items, text)) && text(items[0].name) != ""
  {
    forall i | 0 <= i < |items| - 1 && items[1..][i].Label? ensures StartsMark(text(items[1..][i].name)) {
      assert items[i + 1].Label?;
    }
    if items[0].Label? {
      var t, w := text(items[0].name), Render(items, text);
      assert StartsMark(t);
      assert w[..5] == t[..5];
    }
  }

  lemma PlainIsNoMark(items: seq<Item>, text: string -> string)
    requires AllMarks(items, text) && Unreserved(items) && items != [] && items[0].Ch?
    ensures !StartsMark(Render(items, text))
  {
    forall i | 0 <= i < |items| && items[i].Label? ensures StartsWith(text(items[i].name), "__") {
      var t := text(items[i].name);
      assert StartsMark(t);
      assert t[..2] == t[..5][..2];
    }
    PlainStartIsPlain(items, text, "__LAB");
    PlainStartIsPlain(items, text, "__REF");
  }

  /** The first mark is the same on both sides, because neither runs on into the other. */
  lemma FirstMarksAgree(x: string, r: string, y: string, q: string)
    requires x + r == y + q && !RunsOn(x, r, y) && !RunsOn(y, q, x)
    ensures x == y && r == q
  {
    var w := x + r;
    assert w[..|x|] == x && w[..|y|] == y;
    assert w[|x|..] == r && w[|y|..] == q;
  }

  lemma NotEmpty(items: seq<Item>, text: string -> string)
    requires AllMarks(items, text) && items != []
    ensures Render(items, text) != ""
  {
    MarksAhead(items, text);
  }

  /** Items rendered to the same text are the same, unless a mark runs on. */
  lemma {:induction false} RenderedAlike(s: seq<Item>, f: string -> string, t: seq<Item>, g: string -> string)
    requires Unreserved(s) && Unreserved(t) && AllMarks(s, f) && AllMarks(t, g)
    requires NeverRunsOn(s, f, t, g) && NeverRunsOn(t, g, s, f)
    requires Render(s, f) == Render(t, g)
    ensures SameItems(s, f, t, g)
  {
    if s == [] || t == [] {
      if s != [] {
        NotEmpty(s, f);
      }
      if t != [] {
        NotEmpty(t, g);
      }
    } else {
      FirstAlike(s, f, t, g);
      MarksAhead(s, f);
      MarksAhead(t, g);
      NeverRunsOnLater(s, f, t, g);
      NeverRunsOnLater(t, g, s, f);
      RenderedAlike(s[1..], f, t[1..], g);
      SameItemsGrow(s, f, t, g);
    }
  }

  lemma SameItemsGrow(s: seq<Item>, f: string -> string, t: seq<Item>, g: string -> string)
    requires s != [] && t != [] && SameItem(s[0], f, t[0], g) && SameItems(s[1..], f, t[1..], g)
    ensures SameItems(s, f, t, g)
  {
    forall k | 0 <= k < |s| ensures SameItem(s[k], f, t[k], g) {
      if k > 0 {
        assert SameItem(s[1..][k - 1], f, t[1..][k - 1], g);
      }
    }
  }

  lemma FirstAlike(s: seq<Item>, f: string -> string, t: seq<Item>, g: string -> string)
    requires Unreserved(s) && Unreserved(t) && AllMarks(s, f) && AllMarks(t, g) && s != [] && t != []
    requires NeverRunsOn(s, f, t, g) && NeverRunsOn(t, g, s, f) && Render(s, f) == Render(t, g)
    ensures SameItem(s[0], f, t[0], g) && Render(s[1..], f) == Render(t[1..], g)
  {
    MarksAhead(s, f);
    MarksAhead(t, g);
    if s[0].Ch? {
      PlainIsNoMark(s, f);
    }
    if t[0].Ch? {
      PlainIsNoMark(t, g);
    }
    if s[0].Label? {
      FirstMarksAgree(f(s[0].name), Render(s[1..], f), g(t[0].name), Render(t[1..], g));
    } else {
      assert Render(s, f)[1..] == Render(s[1..], f) && Render(t, g)[1..] == Render(t[1..], g);
    }
  }

  // ---------------------------------------------------------------- references that run on

  lemma {:induction false} NotAmongDigits(n: nat, c: char)
    requires !IsDigit(c)
    ensures c !in Print(n)
  {
    NoCharIn(Print(n), c);
  }

  /** A reference that continues another one is to a section whose name continues the other's key and
      ordinal, and what is added is the rest of that name and its own occurrence and ordinal. */
  lemma ReferenceContinues(k: string, n: nat, c: string, o: nat, n': nat, r: string) returns (s: string)
    requires RefMarker(SectionKey(c, o), n') == RefMarker(k, n) + r && r != ""
    ensures c == k + ":" + Print(n) + "]" + s && r == s + "#" + Print(o) + ":" + Print(n') + "]"
  {
    var head, tail := k + ":" + Print(n) + "]", "#" + Print(o) + ":" + Print(n') + "]";
    ReferenceParts(k, n, c, o, n', r);
    CloseInFront(head, r, c, o, n');
    s := c[|head|..];
    assert head == (head + r)[..|head|] == (c + tail)[..|head|] == c[..|head|];
    assert r == (head + r)[|head|..] == (c + tail)[|head|..] == s + tail;
    assert s + tail == s + "#" + Print(o) + ":" + Print(n') + "]";
    assert c == head + s;
  }

  lemma ReferenceParts(k: string, n: nat, c: string, o: nat, n': nat, r: string)
    requires RefMarker(SectionKey(c, o), n') == RefMarker(k, n) + r
    ensures k + ":" + Print(n) + "]" + r == c + ("#" + Print(o) + ":" + Print(n') + "]")
  {
    BehindOpening(k, Print(n), r);
    BehindOpening(SectionKey(c, o), Print(n'), "");
    KeyApart(c, Print(o), Print(n'));
  }

  lemma BehindOpening(k: string, n: string, r: string)
    ensures ("__REF[" + k + ":" + n + "]" + r)[6..] == k + ":" + n + "]" + r
    ensures "__REF[" + k + ":" + n + "]" + "" == "__REF[" + k + ":" + n + "]"
            && k + ":" + n + "]" + "" == k + ":" + n + "]"
  {
    var x := k + ":" + n + "]" + r;
    assert "__REF[" + k + ":" + n + "]" + r == "__REF[" + x;
  }

  lemma KeyApart(c: string, o: string, n: string)
    ensures (c + "#" + o) + ":" + n + "]" == c + ("#" + o + ":" + n + "]")
  {
  }

  lemma CloseInFront(head: string, r: string, c: string, o: nat, n': nat)
    requires head != "" && Last(head) == ']' && r != ""
    requires head + r == c + ("#" + Print(o) + ":" + Print(n') + "]")
    ensures |head| <= |c|
  {
    var tail := "#" + Print(o) + ":" + Print(n') + "]";
    NotAmongDigits(o, ']');
    NotAmongDigits(n', ']');
    assert forall i | 0 <= i < |tail| - 1 :: tail[i] != ']';
    assert (head + r)[|head| - 1] == ']';
    OnlyLast(c, tail, |head| - 1);
  }

  lemma OnlyLast(c: string, tail: string, p: nat)
    requires p < |c + tail| - 1 && (c + tail)[p] == ']' && forall i | 0 <= i < |tail| - 1 :: tail[i] != ']'
    ensures p < |c|
  {
  }

  lemma LocalNeverContinues(m: nat, n: nat, r: string)
    requires LocalMarker(n) == LocalMarker(m) + r && r != ""
    ensures IsDigit(r[0])
  {
    var w := LocalMarker(n);
    assert w[|LocalMarker(m)|] == r[0];
    assert w[5..] == Print(n);
    assert w[5..][|LocalMarker(m)| - 5] == r[0];
  }

  // ---------------------------------------------------------------- text behind a label

  predicate SpellsMark(s: string) { s != [] && (StartsMark(s) || SpellsMark(s[1..])) }

  predicate Labelless(items: seq<Item>) { forall i | 0 <= i < |items| :: items[i].Ch? }

  /** A label can be followed by this rest of a section name and a number sign: it does not start like part of
      a symbol, and it is read as plain characters. A rest that spells a mark may always be the text of labels. */
  predicate CanFollow(s: string) {
    var t := s + "#";
    !SymbolPart(t[0]) && (Labelless(Items(t, 0)) || SpellsMark(t))
  }

  /** The key, with some ordinal behind it, begins the name, and what is left can follow a label. */
  ghost predicate RunsInto(key: string, name: string) {
    exists n: nat, s :: name == key + ":" + Print(n) + "]" + s && CanFollow(s)
  }

  /** Plain text in a rendering that spells no mark comes from plain items. */
  lemma {:induction false} PlainText(items: seq<Item>, text: string -> string, t: string)
    requires AllMarks(items, text) && StartsWith(Render(items, text), t) && !SpellsMark(t)
    requires t != "" ==> Last(t) == '#'
    ensures Begins(items, t)
  {
    if t != "" {
      var w := Render(items, text);
      assert w != "" && items != [];
      MarksAhead(items, text);
      if items[0].Label? {
        MarkIsSpelt(w, t);
      } else {
        assert w[0] == w[..|t|][0] == t[0] && w[1..] == Render(items[1..], text);
        assert w[1..][..|t| - 1] == w[..|t|][1..] == t[1..];
        PlainText(items[1..], text, t[1..]);
      }
    }
  }

  lemma MarkCharacters(w: string, i: nat)
    requires StartsMark(w) && i < 5
    ensures i < |w| && w[i] != '#'
  {
    assert w[..5][i] == w[i];
  }

  lemma MarkIsSpelt(w: string, t: string)
    requires StartsMark(w) && StartsWith(w, t) && t != "" && Last(t) == '#'
    ensures SpellsMark(t)
  {
    assert t == w[..|t|];
    if |t| <= 5 {
      MarkCharacters(w, |t| - 1);
    }
    assert t[..5] == w[..5];
  }

  // ---------------------------------------------------------------- solid symbols

  /** Symbol characters without a dot that end in a letter: whatever was read before them, they are read as
      plain characters, and a symbol is running when they end. */
  predicate Solid(t: string) {
    && (forall i | 0 <= i < |t| :: SymbolPart(t[i]) && t[i] != '.')
    && (t != "" ==> SymbolStart(Last(t)))
  }

  lemma {:induction false} SymbolRunsOn(t: string, r: string)
    requires forall i | 0 <= i < |t| :: SymbolPart(t[i])
    ensures SymbolLength(t + r) == |t| + SymbolLength(r)
  {
    if t == [] {
      assert t + r == r;
    } else {
      assert (t + r)[1..] == t[1..] + r;
      SymbolRunsOn(t[1..], r);
    }
  }

  /** How much of the text behind a solid one is already recognised, depending on how much was before it. */
  function Beyond(n: nat, y: string, quiet: nat): (next: nat)
    requires quiet <= n + |y|
    ensures next <= |y|
  {
    if quiet < n then SymbolLength(y) else quiet - n
  }

  lemma Slices<T>(x: seq<T>, r: seq<T>, n: nat)
    requires n <= |x|
    ensures (x + r)[n..] == x[n..] + r && (x + r)[..n] == x[..n]
  {
  }

  lemma SolidTail(t: string)
    requires Solid(t) && t != ""
    ensures Solid(t[1..]) && SymbolPart(t[0]) && t[0] != '.' && (|t| == 1 ==> SymbolStart(t[0]))
  {
    assert t[1..] != "" ==> Last(t[1..]) == Last(t);
  }

  lemma LocalStartsDotted(symbol: string)
    requires IsLocal(symbol)
    ensures symbol[0] == '.'
  {
    assert symbol[..2][0] == symbol[0];
  }

  lemma StartsNoLabel(s: string, quiet: nat)
    requires s != [] && SymbolPart(s[0]) && s[0] != '.' && quiet <= |s|
    ensures Items(s, quiet) == [Ch(s[0])] + Items(s[1..], NextQuiet(s, quiet))
    ensures NextQuiet(s, quiet) == if quiet > 0 then quiet - 1 else if SymbolStart(s[0]) then SymbolLength(s) - 1 else 0
  {
    if StartsLabel(s, quiet) {
      LocalStartsDotted(s[..SymbolLength(s)]);
    }
    FirstItem(s, quiet);
  }

  lemma PlainBehind(t: string, rest: seq<Item>)
    requires t != []
    ensures Plain(t) + rest == [Ch(t[0])] + (Plain(t[1..]) + rest)
  {
    assert Plain(t) == [Ch(t[0])] + Plain(t[1..]);
  }

  lemma {:induction false} SolidRead(t: string, y: string, quiet: nat)
    requires Solid(t) && quiet <= |t| + |y|
    ensures Items(t + y, quiet) == Plain(t) + Items(y, Beyond(|t|, y, quiet))
  {
    if t == "" {
      assert t + y == y && Plain(t) == [];
    } else {
      Slices(t, y, 1);
      SolidTail(t);
      SolidNext(t, y, quiet);
      SolidRead(t[1..], y, NextQuiet(t + y, quiet));
      PlainBehind(t, Items(y, Beyond(|t|, y, quiet)));
    }
  }

  lemma SolidNext(t: string, y: string, quiet: nat)
    requires Solid(t) && t != "" && quiet <= |t| + |y|
    ensures var next := NextQuiet(t + y, quiet);
            next <= |t| - 1 + |y| && Beyond(|t| - 1, y, next) == Beyond(|t|, y, quiet)
    ensures Items(t + y, quiet) == [Ch(t[0])] + Items((t + y)[1..], NextQuiet(t + y, quiet))
  {
    SolidTail(t);
    SymbolRunsOn(t, y);
    StartsNoLabel(t + y, quiet);
  }

  lemma {:induction false} HashIsSolid(t: string, p: nat)
    requires p <= HASH_LENGTH && |t| == HASH_LENGTH - p && HashTail(t, p)
    ensures Solid(t)
    decreases HASH_LENGTH - p
  {
    if p < HASH_LENGTH {
      HashIsSolid(t[1..], p + 1);
      SolidGrows(t);
    }
  }

  lemma SolidGrows(t: string)
    requires t != "" && Solid(t[1..]) && SymbolPart(t[0]) && t[0] != '.' && (|t| == 1 ==> SymbolStart(t[0]))
    ensures Solid(t)
  {
    assert forall i | 1 <= i < |t| :: t[i] == t[1..][i - 1];
    assert t[1..] != "" ==> Last(t[1..]) == Last(t);
  }

  // ---------------------------------------------------------------- a line behind one of its labels

  /** A hash among the items is a hash in the text, and the items behind it are those of the text behind it. */
  lemma {:induction false} HashInText(y: string, u: nat, p: nat)
    requires u <= |y| && p <= HASH_LENGTH && HashItems(Items(y, u), p)
    ensures HashTail(y, p)
    decreases HASH_LENGTH - p
  {
    if p < HASH_LENGTH {
      assert y != "";
      FirstItem(y, u);
      HashInText(y[1..], NextQuiet(y, u), p + 1);
      assert Items(y, u)[1..] == Items(y[1..], NextQuiet(y, u));
    }
  }

  lemma {:induction false} HashFront(y: string, p: nat)
    requires p <= HASH_LENGTH && HashTail(y, p)
    ensures |y| >= HASH_LENGTH - p && HashTail(y[..HASH_LENGTH - p], p)
    decreases HASH_LENGTH - p
  {
    if p < HASH_LENGTH {
      HashFront(y[1..], p + 1);
      assert y[..HASH_LENGTH - p][1..] == y[1..][..HASH_LENGTH - p - 1];
    }
  }

  lemma BehindHash(y: string, u: nat)
    requires u <= |y| && HashItems(Items(y, u), 0)
    ensures |y| >= HASH_LENGTH && Solid(y[..HASH_LENGTH])
    ensures Items(y, u) == Plain(y[..HASH_LENGTH]) + Items(y[HASH_LENGTH..], Beyond(HASH_LENGTH, y[HASH_LENGTH..], u))
    ensures ErasedItems(Items(y, u), 0)
            == Plain(ERASED_HASH) + ErasedItems(Items(y[HASH_LENGTH..], Beyond(HASH_LENGTH, y[HASH_LENGTH..], u)), 0)
  {
    HashInText(y, u, 0);
    HashFront(y, 0);
    HashIsSolid(y[..HASH_LENGTH], 0);
    Halves(y, HASH_LENGTH);
    SolidRead(y[..HASH_LENGTH], y[HASH_LENGTH..], u);
    HashItemsErased(Items(y, u));
    TailOf(Plain(y[..HASH_LENGTH]), Items(y[HASH_LENGTH..], Beyond(HASH_LENGTH, y[HASH_LENGTH..], u)));
  }

  lemma TailOf<T>(a: seq<T>, b: seq<T>)
    ensures (a + b)[|a|..] == b
  {
  }

  /** How the erasing goes on behind a first item that starts no hash. */
  function NextErased(items: seq<Item>, q: nat): (next: nat)
    requires items != [] && q <= |items|
    ensures next <= |items| - 1
  {
    if q > 0 then q - 1
    else if items[0] == Ch('"') && CloseItems(items[1..]).Some? then CloseItems(items[1..]).value else 0
  }

  lemma FirstErased(items: seq<Item>, q: nat)
    requires items != [] && q <= |items| && (q == 0 ==> !HashItems(items, 0))
    ensures ErasedItems(items, q) == [items[0]] + ErasedItems(items[1..], NextErased(items, q))
  {
  }

  /** Where the reading of a line goes on behind its first item. */
  function NextText(y: string, u: nat): (string, nat)
    requires y != "" && u <= |y|
  {
    if StartsLabel(y, u) then (y[SymbolLength(y)..], 0) else (y[1..], NextQuiet(y, u))
  }

  lemma NextItems(y: string, u: nat)
    requires y != "" && u <= |y|
    ensures var (z, v) := NextText(y, u); v <= |z| < |y| && Items(y, u) != [] && Items(y, u)[1..] == Items(z, v)
    ensures Items(y, u)[0] == if StartsLabel(y, u) then Label(y[..SymbolLength(y)]) else Ch(y[0])
  {
    FirstItem(y, u);
  }

  /** What a line says behind one of its labels is what the text behind that label says. */
  lemma {:induction false} SaidBehindLabel(y: string, u: nat, q: nat, k: nat) returns (z: string, q': nat)
    requires u <= |y| && q <= |Items(y, u)|
    requires k < |ErasedItems(Items(y, u), q)| && ErasedItems(Items(y, u), q)[k].Label?
    ensures q' <= |Items(z, 0)| && ErasedItems(Items(y, u), q)[k + 1..] == ErasedItems(Items(z, 0), q')
    decreases |y|
  {
    var items := Items(y, u);
    assert y != "";
    if q == 0 && HashItems(items, 0) {
      BehindHash(y, u);
      var z0, u0 := y[HASH_LENGTH..], Beyond(HASH_LENGTH, y[HASH_LENGTH..], u);
      SplitBehind(Plain(ERASED_HASH), ErasedItems(Items(z0, u0), 0), k);
      z, q' := SaidBehindLabel(z0, u0, 0, k - |ERASED_HASH|);
    } else {
      NextItems(y, u);
      FirstErased(items, q);
      var (z0, u0) := NextText(y, u);
      var rest := ErasedItems(Items(z0, u0), NextErased(items, q));
      if k == 0 {
        assert ([items[0]] + rest)[1..] == rest;
        z, q' := z0, NextErased(items, q);
      } else {
        SplitBehind([items[0]], rest, k);
        z, q' := SaidBehindLabel(z0, u0, NextErased(items, q), k - 1);
      }
    }
  }

  lemma SplitBehind(a: seq<Item>, b: seq<Item>, k: nat)
    requires k < |a + b| && (a + b)[k].Label?
    requires (forall i | 0 <= i < |a| :: a[i].Ch?) || k >= |a|
    ensures k >= |a| && (a + b)[k] == b[k - |a|] && (a + b)[k + 1..] == b[k - |a| + 1..]
  {
  }

  // ---------------------------------------------------------------- the same text, read on its own

  /** Both are at the same point of a reading: at its start, inside a symbol, or inside a comment. */
  predicate InStep(y: string, u: nat, t: string, v: nat) {
    || (u == 0 && v == 0)
    || (u == SymbolLength(y) && v == SymbolLength(t))
    || (u == |y| && v == |t|)
  }

  /** The line read from here says this text, which ends with a number sign and has no quotes. */
  predicate Says(y: string, u: nat, q: nat, t: string, v: nat) {
    && u <= |y| && v <= |t| && q <= |Items(y, u)| && Begins(ErasedItems(Items(y, u), q), t) && InStep(y, u, t, v)
    && '"' !in t && (t != "" ==> Last(t) == '#')
  }

  lemma SaysBehindHash(y: string, u: nat, t: string, v: nat)
    requires Says(y, u, 0, t, v) && t != "" && HashItems(Items(y, u), 0)
    ensures |y| >= HASH_LENGTH && |t| > |ERASED_HASH| && t[..|ERASED_HASH|] == ERASED_HASH
    ensures Says(y[HASH_LENGTH..], Beyond(HASH_LENGTH, y[HASH_LENGTH..], u), 0,
                 t[|ERASED_HASH|..], Beyond(|ERASED_HASH|, t[|ERASED_HASH|..], v))
  {
    BehindHash(y, u);
    HashSaid(y, u, t, v);
  }

  lemma SaysBehindChar(y: string, u: nat, q: nat, t: string, v: nat)
    requires Says(y, u, q, t, v) && t != "" && (q == 0 ==> !HashItems(Items(y, u), 0))
    ensures y != "" && !StartsLabel(t, v)
    ensures Says(y[1..], NextQuiet(y, u), NextErased(Items(y, u), q), t[1..], NextQuiet(t, v))
  {
    assert y != "";
    CharSaid(y, u, q, t, v);
  }

  lemma CharPlain(t: string, v: nat)
    requires t != "" && v <= |t| && !StartsLabel(t, v) && Labelless(Items(t[1..], NextQuiet(t, v)))
    ensures Labelless(Items(t, v))
  {
    FirstItem(t, v);
  }

  /** Text that a line says, up to a number sign, is plain when read on its own. */
  lemma {:induction false} SaidIsPlain(y: string, u: nat, q: nat, t: string, v: nat)
    requires Says(y, u, q, t, v)
    ensures Labelless(Items(t, v))
    decreases |y|
  {
    if t != "" {
      if q == 0 && HashItems(Items(y, u), 0) {
        SaysBehindHash(y, u, t, v);
        SaidIsPlain(y[HASH_LENGTH..], Beyond(HASH_LENGTH, y[HASH_LENGTH..], u), 0,
                    t[|ERASED_HASH|..], Beyond(|ERASED_HASH|, t[|ERASED_HASH|..], v));
        HashPlain(t, v);
      } else {
        SaysBehindChar(y, u, q, t, v);
        SaidIsPlain(y[1..], NextQuiet(y, u), NextErased(Items(y, u), q), t[1..], NextQuiet(t, v));
        CharPlain(t, v);
      }
    }
  }

  lemma {:induction false} BeginsSplit(a: string, rest: seq<Item>, t: string)
    requires Begins(Plain(a) + rest, t) && (t != "" ==> Last(t) == '#') && '#' !in a && t != ""
    ensures |t| > |a| && t[..|a|] == a && Begins(rest, t[|a|..])
  {
    if a == "" {
      assert Plain(a) + rest == rest;
    } else {
      PlainBehind(a, rest);
      assert (Plain(a) + rest)[1..] == Plain(a[1..]) + rest;
      if |t| > 1 {
        BeginsSplit(a[1..], rest, t[1..]);
        assert t[1..][|a| - 1..] == t[|a|..];
        assert t[..|a|] == [t[0]] + t[1..][..|a| - 1];
      }
    }
  }

  lemma ErasedHashIsSolid()
    ensures Solid(ERASED_HASH) && '#' !in ERASED_HASH
  {
  }

  lemma HashSaid(y: string, u: nat, t: string, v: nat)
    requires u <= |y| && v <= |t| && t != "" && Last(t) == '#' && InStep(y, u, t, v) && HashItems(Items(y, u), 0)
    requires Begins(ErasedItems(Items(y, u), 0), t)
    ensures |y| >= HASH_LENGTH && |t| > |ERASED_HASH| && t[..|ERASED_HASH|] == ERASED_HASH
    ensures var z, r := y[HASH_LENGTH..], t[|ERASED_HASH|..];
            var u', v' := Beyond(HASH_LENGTH, z, u), Beyond(|ERASED_HASH|, r, v);
            InStep(z, u', r, v') && Begins(ErasedItems(Items(z, u'), 0), r)
  {
    BehindHash(y, u);
    ErasedHashIsSolid();
    var z := y[HASH_LENGTH..];
    BeginsSplit(ERASED_HASH, ErasedItems(Items(z, Beyond(HASH_LENGTH, z, u)), 0), t);
    Halves(y, HASH_LENGTH);
    Halves(t, |ERASED_HASH|);
    SymbolRunsOn(y[..HASH_LENGTH], z);
    SymbolRunsOn(ERASED_HASH, t[|ERASED_HASH|..]);
  }

  lemma HashPlain(t: string, v: nat)
    requires v <= |t| && |t| > |ERASED_HASH| && t[..|ERASED_HASH|] == ERASED_HASH
    requires var r := t[|ERASED_HASH|..]; Labelless(Items(r, Beyond(|ERASED_HASH|, r, v)))
    ensures Labelless(Items(t, v))
  {
    ErasedHashIsSolid();
    Halves(t, |ERASED_HASH|);
    SolidRead(ERASED_HASH, t[|ERASED_HASH|..], v);
  }

  lemma CharSaid(y: string, u: nat, q: nat, t: string, v: nat)
    requires u <= |y| && v <= |t| && q <= |Items(y, u)| && y != "" && t != "" && InStep(y, u, t, v)
    requires Begins(ErasedItems(Items(y, u), q), t) && '"' !in t && Last(t) == '#'
    requires q == 0 ==> !HashItems(Items(y, u), 0)
    ensures !StartsLabel(y, u) && !StartsLabel(t, v) && y[0] == t[0]
    ensures NextErased(Items(y, u), q) <= |Items(y[1..], NextQuiet(y, u))|
    ensures Begins(ErasedItems(Items(y[1..], NextQuiet(y, u)), NextErased(Items(y, u), q)), t[1..])
    ensures InStep(y[1..], NextQuiet(y, u), t[1..], NextQuiet(t, v))
  {
    NextItems(y, u);
    FirstErased(Items(y, u), q);
    var rest := ErasedItems(Items(y[1..], NextQuiet(y, u)), NextErased(Items(y, u), q));
    assert ([Items(y, u)[0]] + ErasedItems(Items(y, u)[1..], NextErased(Items(y, u), q)))[1..]
           == ErasedItems(Items(y, u)[1..], NextErased(Items(y, u), q));
    SecondSaid(y, u, NextErased(Items(y, u), q), t);
    StepsStayInStep(y, u, t, v);
  }

  lemma SecondSaid(y: string, u: nat, q: nat, t: string)
    requires y != "" && u <= |y| && t != "" && !StartsLabel(y, u) && q <= |Items(y[1..], NextQuiet(y, u))|
    requires Begins(ErasedItems(Items(y[1..], NextQuiet(y, u)), q), t[1..])
    ensures |t| > 1 ==> |y| > 1 && y[1] == t[1]
  {
    if |t| > 1 {
      var items := Items(y[1..], NextQuiet(y, u));
      assert items != [];
      ErasedHead(items, q);
      NextItems(y[1..], NextQuiet(y, u));
    }
  }

  lemma StepsStayInStep(y: string, u: nat, t: string, v: nat)
    requires u <= |y| && v <= |t| && y != "" && t != "" && InStep(y, u, t, v) && y[0] == t[0] && y[0] != '"'
    requires !StartsLabel(y, u) && (|t| > 1 ==> |y| > 1 && y[1] == t[1])
    ensures !StartsLabel(t, v) && InStep(y[1..], NextQuiet(y, u), t[1..], NextQuiet(t, v))
  {
    LocalStart(t);
    LocalStart(y);
  }

  lemma LocalStart(s: string)
    ensures IsLocal(s[..SymbolLength(s)]) <==> |s| > 1 && s[0] == '.' && s[1] == 'L'
  {
    var n := SymbolLength(s);
    assert n >= 2 ==> s[..n][..2] == [s[0], s[1]];
    assert n < |s| ==> !SymbolPart(s[n]);
  }

  // ---------------------------------------------------------------- what lets a reference run on

  lemma SeparatedAt(items: seq<Item>, k: nat)
    requires Separated(items) && k + 1 < |items| && items[k].Label?
    ensures items[k + 1].Ch? && !SymbolPart(items[k + 1].c)
  {
    SeparatedTail(items, k);
  }

  lemma FirstBehind(items: seq<Item>, text: string -> string, k: nat, t: string)
    requires Separated(items) && k < |items| && items[k].Label?
    requires t != "" && StartsWith(Render(items[k + 1..], text), t)
    ensures !SymbolPart(t[0])
  {
    var rest := items[k + 1..];
    assert rest != [] && rest[0] == items[k + 1];
    SeparatedAt(items, k);
    assert t[0] == Render(rest, text)[..|t|][0];
  }

  lemma Continuation(x: string, behind: string, y: string) returns (r: string)
    requires RunsOn(x, behind, y)
    ensures r != "" && y == x + r && StartsWith(behind, r)
  {
    r := y[|x|..];
    assert y == (x + behind)[..|y|];
    assert y[..|x|] == x && (x + behind)[|x|..] == behind;
    assert behind[..|r|] == (x + behind)[|x|..][..|r|] == (x + behind)[|x|..|y|] == r;
  }

  /** A line on which a reference runs on into a longer one shows that the names allow it. */
  lemma RunningOnNeedsNames(line: string, text: string -> string, k: nat, key: string, n: nat, c: string, o: nat,
                            n': nat)
    requires Separated(Content(line)) && AllMarks(Content(line), text) && '"' !in c
    requires k < |Content(line)| && Content(line)[k].Label?
    requires RunsOn(RefMarker(key, n), Render(Content(line)[k + 1..], text), RefMarker(SectionKey(c, o), n'))
    ensures RunsInto(key, c)
  {
    var rest := Content(line)[k + 1..];
    var r := Continuation(RefMarker(key, n), Render(rest, text), RefMarker(SectionKey(c, o), n'));
    var s := ReferenceContinues(key, n, c, o, n', r);
    var t := s + "#";
    FrontOfRest(Render(rest, text), r, s, Print(o) + ":" + Print(n') + "]");
    FirstBehind(Content(line), text, k, t);
    if !SpellsMark(t) {
      MarksBehind(Content(line), text, k + 1);
      PlainText(rest, text, t);
      var z, q := SaidBehindLabel(line, 0, 0, k);
      assert forall ch | ch in s :: ch in c;
      SaidIsPlain(z, 0, q, t, 0);
    }
    assert CanFollow(s);
  }

  lemma FrontOfRest(w: string, r: string, s: string, tail: string)
    requires StartsWith(w, r) && r == s + "#" + tail
    ensures StartsWith(w, s + "#")
  {
    assert w[..|s| + 1] == w[..|r|][..|s| + 1] == s + "#";
  }

  lemma MarksBehind(items: seq<Item>, text: string -> string, k: nat)
    requires AllMarks(items, text) && k <= |items|
    ensures AllMarks(items[k..], text)
  {
    forall i | 0 <= i < |items| - k && items[k..][i].Label? ensures StartsMark(text(items[k..][i].name)) {
      assert items[k + i].Label?;
    }
  }

  // ---------------------------------------------------------------- writing such a text behind a label

  lemma {:induction false} AllPlain(s: string)
    ensures Items(s, |s|) == Plain(s)
  {
    if s != [] {
      AllPlain(s[1..]);
      assert Plain(s) == [Ch(s[0])] + Plain(s[1..]);
    }
  }

  lemma LabellessPlain(s: string)
    ensures Labelless(Plain(s))
  {
  }

  /** A number sign starts a comment, so text that is plain up to one stays plain whatever follows. */
  lemma {:induction false} PlainPastComment(t: string, v: nat, z: string, u: nat)
    requires v <= |t| && u <= |t + z| && InStep(t, v, t + z, u) && Labelless(Items(t, v))
    requires t != "" && Last(t) == '#' && '"' !in t
    ensures Items(t + z, u) == Plain(t + z)
  {
    if |t| == 1 {
      CommentStarts(t, v, z, u);
    } else {
      Slices(t, z, 1);
      PlainStep(t, v, t + z, u);
      PlainPastComment(t[1..], NextQuiet(t, v), z, NextQuiet(t + z, u));
      PlainGrows(t + z, u);
    }
  }

  lemma PlainStep(t: string, v: nat, y: string, u: nat)
    requires v <= |t| && u <= |y| && InStep(t, v, y, u) && Labelless(Items(t, v))
    requires 1 < |t| <= |y| && t[0] == y[0] && t[1] == y[1] && t[0] != '"'
    ensures !StartsLabel(t, v) && !StartsLabel(y, u)
    ensures InStep(t[1..], NextQuiet(t, v), y[1..], NextQuiet(y, u)) && Labelless(Items(t[1..], NextQuiet(t, v)))
  {
    NextItems(t, v);
    assert Items(t, v)[0].Ch?;
    StepsStayInStep(t, v, y, u);
    LabellessBehind(t, v);
  }

  lemma PlainGrows(y: string, u: nat)
    requires y != "" && u <= |y| && !StartsLabel(y, u) && Items(y[1..], NextQuiet(y, u)) == Plain(y[1..])
    ensures Items(y, u) == Plain(y)
  {
    FirstItem(y, u);
    assert Plain(y) == [Ch(y[0])] + Plain(y[1..]);
  }

  lemma LabellessBehind(t: string, v: nat)
    requires v <= |t| && t != "" && !StartsLabel(t, v) && Labelless(Items(t, v))
    ensures Labelless(Items(t[1..], NextQuiet(t, v)))
  {
    FirstItem(t, v);
    var rest := Items(t[1..], NextQuiet(t, v));
    assert forall i | 0 <= i < |rest| :: rest[i] == Items(t, v)[i + 1];
  }

  lemma CommentStarts(t: string, v: nat, z: string, u: nat)
    requires t == "#" && v <= 1 && u <= |t + z| && InStep(t, v, t + z, u)
    ensures Items(t + z, u) == Plain(t + z)
  {
    var y := t + z;
    assert y[0] == '#' && y[1..] == z;
    if u == |y| {
      AllPlain(y);
    } else {
      FirstItem(y, u);
      AllPlain(z);
      assert Plain(y) == [Ch(y[0])] + Plain(z);
    }
  }

  lemma {:induction false} SpellsAcross(t: string, z: string)
    requires SpellsMark(t + "#" + z) && '_' !in z
    ensures SpellsMark(t)
  {
    var w := t + "#" + z;
    if t == "" {
      assert w == "#" + z;
      NoMarkWithoutUnderscore(w);
    } else if StartsMark(w) {
      if |t| < 5 {
        assert w[|t|] == '#';
        MarkCharacters(w, |t|);
      }
      assert t[..5] == w[..5];
    } else {
      assert w[1..] == t[1..] + "#" + z;
      SpellsAcross(t[1..], z);
    }
  }

  lemma {:induction false} NoMarkWithoutUnderscore(w: string)
    requires '_' !in w
    ensures !SpellsMark(w)
  {
    if w != "" {
      assert |w| >= 5 ==> w[..5][0] == w[0];
      NoMarkWithoutUnderscore(w[1..]);
    }
  }

  lemma {:induction false} SpellsBehind(x: string, s: string)
    requires SpellsMark(s)
    ensures SpellsMark(x + s)
  {
    if x == "" {
      assert x + s == s;
    } else {
      assert (x + s)[1..] == x[1..] + s;
      SpellsBehind(x[1..], s);
    }
  }

  lemma {:induction false} BeginsPlain(t: string, m: string)
    requires Begins(Plain(t), m)
    ensures StartsWith(t, m)
  {
    if m != "" {
      assert Plain(t)[1..] == Plain(t[1..]);
      BeginsPlain(t[1..], m[1..]);
      assert t[..|m|] == [t[0]] + t[1..][..|m| - 1];
    }
  }

  lemma {:induction false} UnspeltUnreserved(t: string)
    requires !SpellsMark(t)
    ensures Unreserved(Plain(t))
  {
    if t != "" {
      assert Plain(t)[1..] == Plain(t[1..]);
      UnspeltUnreserved(t[1..]);
      if Begins(Plain(t), "__LAB") {
        BeginsPlain(t, "__LAB");
      }
      if Begins(Plain(t), "__REF") {
        BeginsPlain(t, "__REF");
      }
    }
  }
}
