/** The texts the comparator writes in place of local labels, and how to read them back. */
module AsmMarkers {
  import opened Protocol
  import opened Decimal
  import opened AsmText

  // ---------------------------------------------------------------- canonical texts

  /** Every instance hash erased, quoted or not: the canonical form of a section name. */
  function EraseAll(s: string): string
    decreases |s|
  {
    if s == [] then ""
    else if HashTail(s, 0) then (HashTailLength(s, 0); ERASED_HASH + EraseAll(s[HASH_LENGTH..]))
    else [s[0]] + EraseAll(s[1..])
  }

  function LocalMarker(ordinal: nat): string { "__LAB" + Print(ordinal) }

  function RefMarker(key: string, ordinal: nat): string { "__REF[" + key + ":" + Print(ordinal) + "]" }

  function SectionKey(name: string, occurrence: nat): string { name + "#" + Print(occurrence) }

  // ---------------------------------------------------------------- they are harmless

  lemma {:induction false} WithoutHIsInert(s: string)
    requires forall i | 0 <= i < |s| :: s[i] != 'h' && s[i] != '"'
    ensures Inert(s)
  {
    if s != [] {
      WithoutHIsInert(s[1..]);
      assert |s| > 2 ==> s[1..][1..][0] == s[2];
    }
  }

  lemma {:induction false} InertAppend(x: string, y: string)
    requires Inert(x) && Inert(y) && (y == [] || !SymbolPart(y[0]))
    ensures Inert(x + y)
  {
    if x == [] {
      assert x + y == y;
    } else {
      assert (x + y)[1..] == x[1..] + y;
      InertAppend(x[1..], y);
      if HashTail(x + y, 0) {
        HashDoesNotCross(x, y, 0);
      }
    }
  }

  lemma ErasedHashIsNoTail(rest: string, p: nat)
    requires 1 <= p < HASH_LENGTH
    ensures !HashTail(ERASED_HASH + rest, p)
  {
    var e := ERASED_HASH + rest;
    assert e[0] == '1' && e[1..][0] == '7' && e[1..][1..][0] == 'h';
    if p + 2 < HASH_LENGTH {
      assert !HashTail(e[1..][1..], p + 2);
    }
  }

  /** Erasing leaves no part of a hash that was not there before. */
  lemma {:induction false} ErasingMakesNoHash(s: string, p: nat)
    requires 1 <= p <= HASH_LENGTH && HashTail(EraseAll(s), p)
    ensures HashTail(s, p)
    decreases HASH_LENGTH - p
  {
    if p < HASH_LENGTH {
      if HashTail(s, 0) {
        HashTailLength(s, 0);
        ErasedHashIsNoTail(EraseAll(s[HASH_LENGTH..]), p);
      } else {
        assert EraseAll(s)[1..] == EraseAll(s[1..]);
        ErasingMakesNoHash(s[1..], p + 1);
      }
    }
  }

  lemma {:induction false} ErasedNameIsInert(s: string)
    requires '"' !in s
    ensures Inert(EraseAll(s))
    decreases |s|
  {
    if s != [] {
      if HashTail(s, 0) {
        HashTailLength(s, 0);
        ErasedNameIsInert(s[HASH_LENGTH..]);
        ErasedHashInFront(EraseAll(s[HASH_LENGTH..]));
      } else {
        ErasedNameIsInert(s[1..]);
        assert EraseAll(s)[1..] == EraseAll(s[1..]);
        if HashTail(EraseAll(s), 0) {
          ErasingMakesNoHash(s[1..], 1);
        }
      }
    }
  }

  lemma ErasedHashInFront(rest: string)
    requires Inert(rest)
    ensures Inert(ERASED_HASH + rest)
  {
    var e := ERASED_HASH + rest;
    assert e[1..] == "7hHASHE" + rest && e[1..][1..] == "hHASHE" + rest && e[1..][1..][1..] == "HASHE" + rest;
    InertInFront("HASHE", rest);
    InertInFront("7h", "HASHE" + rest);
    assert "7hHASHE" + rest == "7h" + ("HASHE" + rest);
    assert !HashTail(e, 0);
  }

  /** Characters that cannot begin a hash keep a text inert. */
  lemma {:induction false} InertInFront(x: string, y: string)
    requires Inert(y) && forall i | 0 <= i < |x| :: x[i] != '1' && x[i] != '"'
    ensures Inert(x + y)
  {
    if x == [] {
      assert x + y == y;
    } else {
      assert (x + y)[1..] == x[1..] + y;
      InertInFront(x[1..], y);
    }
  }

  lemma {:induction false} NoQuoteIsEscapeSafe(t: string)
    requires '"' !in t && (t != [] ==> Last(t) != '\\')
    ensures EscapeSafe(t)
  {
    if t != [] {
      var step := if t[0] == '\\' then 2 else 1;
      assert t[0] == '\\' ==> |t| >= 2;
      assert t[step..] != [] ==> Last(t[step..]) == Last(t);
      NoQuoteIsEscapeSafe(t[step..]);
    }
  }

  lemma {:induction false} NoCharIn(s: string, c: char)
    requires AllDigits(s) && !IsDigit(c)
    ensures c !in s
  {
  }

  lemma LocalMarkerHarmless(ordinal: nat)
    ensures Harmless(LocalMarker(ordinal))
  {
    var t := LocalMarker(ordinal);
    NoQuoteIsEscapeSafe(t);
    WithoutHIsInert(t);
  }

  lemma KeyIsInert(name: string, occurrence: nat)
    requires '"' !in name
    ensures Inert(SectionKey(EraseAll(name), occurrence)) && '"' !in SectionKey(EraseAll(name), occurrence)
  {
    ErasedNameIsInert(name);
    InertHasNoQuote(EraseAll(name));
    var tail := "#" + Print(occurrence);
    WithoutHIsInert(tail);
    InertAppend(EraseAll(name), tail);
    assert SectionKey(EraseAll(name), occurrence) == EraseAll(name) + tail;
  }

  lemma {:induction false} InertHasNoQuote(s: string)
    requires Inert(s)
    ensures '"' !in s
  {
    if s != [] {
      InertHasNoQuote(s[1..]);
    }
  }

  lemma RefMarkerEscapes(key: string, ordinal: nat)
    requires Inert(key)
    ensures EscapeSafe(RefMarker(key, ordinal))
  {
    InertHasNoQuote(key);
    NoCharIn(Print(ordinal), '"');
    NoQuoteIsEscapeSafe(RefMarker(key, ordinal));
  }

  lemma RefMarkerInert(key: string, ordinal: nat)
    requires Inert(key)
    ensures Inert(RefMarker(key, ordinal))
  {
    var tail := ":" + Print(ordinal) + "]";
    WithoutHIsInert(tail);
    InertAppend(key, tail);
    InertInFront("__REF[", key + tail);
    assert RefMarker(key, ordinal) == "__REF[" + (key + tail);
  }

  lemma RefMarkerHarmless(key: string, ordinal: nat)
    requires Inert(key)
    ensures Harmless(RefMarker(key, ordinal))
  {
    RefMarkerEscapes(key, ordinal);
    RefMarkerInert(key, ordinal);
  }

  // ---------------------------------------------------------------- they are unambiguous

  lemma LocalMarkerInjective(m: nat, n: nat)
    requires LocalMarker(m) == LocalMarker(n)
    ensures m == n
  {
    assert Print(m) == LocalMarker(m)[5..] && Print(n) == LocalMarker(n)[5..];
    PrintInjective(m, n);
  }

  lemma SeparatorIsLast(a: string, sep: char, d: string, b: string, e: string)
    requires !IsDigit(sep) && AllDigits(d) && a + [sep] + d == b + [sep] + e
    ensures |a| >= |b|
  {
    var w := a + [sep] + d;
    assert forall k | |a| < k < |w| :: w[k] == d[k - |a| - 1] && IsDigit(w[k]);
    assert w[|b|] == sep;
  }

  /** A text ending in a separator and digits determines both parts. */
  lemma {:induction false} TrailingDigits(a: string, sep: char, m: nat, b: string, n: nat)
    requires !IsDigit(sep) && a + [sep] + Print(m) == b + [sep] + Print(n)
    ensures a == b && m == n
  {
    var s, t := a + [sep] + Print(m), b + [sep] + Print(n);
    SeparatorIsLast(a, sep, Print(m), b, Print(n));
    SeparatorIsLast(b, sep, Print(n), a, Print(m));
    assert a == s[..|a|] && b == t[..|b|];
    assert Print(m) == s[|a| + 1..] && Print(n) == t[|b| + 1..];
    PrintInjective(m, n);
  }

  lemma SectionKeyInjective(a: string, m: nat, b: string, n: nat)
    requires SectionKey(a, m) == SectionKey(b, n)
    ensures a == b && m == n
  {
    TrailingDigits(a, '#', m, b, n);
  }

  lemma RefMarkerInjective(a: string, m: nat, b: string, n: nat)
    requires RefMarker(a, m) == RefMarker(b, n)
    ensures a == b && m == n
  {
    var s, t := RefMarker(a, m), RefMarker(b, n);
    assert a + [':'] + Print(m) == s[6..|s| - 1];
    assert b + [':'] + Print(n) == t[6..|t| - 1];
    TrailingDigits(a, ':', m, b, n);
  }

  lemma LocalIsNotRef(m: nat, key: string, n: nat)
    ensures LocalMarker(m) != RefMarker(key, n)
  {
    assert LocalMarker(m)[2] == 'L' && RefMarker(key, n)[2] == 'R';
  }

  // ---------------------------------------------------------------- reading them back

  predicate StartsWith(s: string, prefix: string) { |s| >= |prefix| && s[..|prefix|] == prefix }

  function DigitRun(s: string): (n: nat)
    ensures n <= |s|
  {
    if s == [] || !IsDigit(s[0]) then 0 else 1 + DigitRun(s[1..])
  }

  function FindClose(s: string): (n: Option<nat>)
    ensures n.Some? ==> n.value < |s|
  {
    if s == [] then None
    else if s[0] == ']' then Some(0)
    else match FindClose(s[1..]) case None => None case Some(n) => Some(n + 1)
  }

  /** The length of the marker a text starts with, or 0. */
  function MarkerLength(w: string): (n: nat)
    ensures n <= |w|
    ensures n > 0 ==> StartsWith(w, "__LAB") || StartsWith(w, "__REF")
  {
    if StartsWith(w, "__LAB") then 5 + DigitRun(w[5..])
    else if StartsWith(w, "__REF[") then
      (assert w[..5] == "__REF"; match FindClose(w[6..]) case None => 0 case Some(n) => n + 7)
    else 0
  }

  /** Reads a text back into items, taking each marker for the label `names` gives it. */
  function Decode(w: string, names: string -> string): seq<Item>
    decreases |w|
  {
    if w == [] then []
    else
      var n := MarkerLength(w);
      if n == 0 then [Ch(w[0])] + Decode(w[1..], names) else [Label(names(w[..n]))] + Decode(w[n..], names)
  }

  function MapLabels(items: seq<Item>, rename: string -> string): (r: seq<Item>)
    ensures |r| == |items|
  {
    if items == [] then []
    else [match items[0] case Ch(c) => Ch(c) case Label(name) => Label(rename(name))] + MapLabels(items[1..], rename)
  }

  /** A marker is a local one, or a reference whose key has no closing bracket. */
  predicate IsMarker(t: string) {
    || (|t| > 5 && t[..5] == "__LAB" && AllDigits(t[5..]))
    || (|t| > 7 && t[..6] == "__REF[" && Last(t) == ']' && ']' !in t[6..|t| - 1])
  }

  lemma {:induction false} DigitRunStops(d: string, r: string)
    requires AllDigits(d) && (r == [] || !IsDigit(r[0]))
    ensures DigitRun(d + r) == |d|
  {
    if d == [] {
      assert d + r == r;
    } else {
      assert (d + r)[1..] == d[1..] + r;
      DigitRunStops(d[1..], r);
    }
  }

  lemma {:induction false} FindCloseStops(k: string, r: string)
    requires ']' !in k
    ensures FindClose(k + "]" + r) == Some(|k|)
  {
    if k != [] {
      assert (k + "]" + r)[1..] == k[1..] + "]" + r;
      FindCloseStops(k[1..], r);
    }
  }

  lemma MarkerIsFound(t: string, r: string)
    requires IsMarker(t) && (r == [] || !SymbolPart(r[0]))
    ensures MarkerLength(t + r) == |t|
  {
    var w := t + r;
    if t[2] == 'L' {
      assert |t| > 5 && t[..5] == "__LAB" && AllDigits(t[5..]) by {
        assert |t| > 7 ==> t[..6][2] == t[2];
      }
      assert w[..5] == t[..5];
      assert w[5..] == t[5..] + r;
      DigitRunStops(t[5..], r);
    } else {
      assert |t| > 5 ==> t[..5][2] == t[2];
      assert |t| > 7 && t[..6] == "__REF[";
      assert w[..6] == t[..6] && w[..6][2] == w[2];
      var k := t[6..|t| - 1];
      assert w[6..] == k + "]" + r;
      FindCloseStops(k, r);
      assert !StartsWith(w, "__LAB") by { assert w[..5][2] == 'R'; }
    }
  }

  // ---------------------------------------------------------------- reserved text

  predicate Begins(items: seq<Item>, text: string) {
    text == [] || (items != [] && items[0] == Ch(text[0]) && Begins(items[1..], text[1..]))
  }

  /** Nowhere outside a label does the line spell the start of a marker. */
  predicate Unreserved(items: seq<Item>) {
    items == [] || (!Begins(items, "__LAB") && !Begins(items, "__REF") && Unreserved(items[1..]))
  }

  /** Plain text at the front of a rendering that cannot come from a marker comes from plain items. */
  lemma {:induction false} RenderedFront(items: seq<Item>, text: string -> string, front: string)
    requires forall i | 0 <= i < |items| :: items[i].Label? ==> StartsWith(text(items[i].name), "__")
    requires StartsWith(Render(items, text), front)
    requires forall i | 1 <= i < |front| :: front[i] != '_'
    requires front != [] && front[0] == '_' ==> |front| >= 2
    ensures Begins(items, front)
  {
    if front != [] {
      var w := Render(items, text);
      assert w[0] == front[0];
      if |front| >= 2 {
        assert w[1] == front[1];
      }
      LabelStart(items, text);
      if items[0].Ch? {
        assert Render(items[1..], text) == w[1..];
        assert w[1..][..|front| - 1] == front[1..];
        RenderedFront(items[1..], text, front[1..]);
      }
    }
  }

  lemma LabelStart(items: seq<Item>, text: string -> string)
    requires items != [] && (items[0].Label? ==> StartsWith(text(items[0].name), "__"))
    ensures items[0].Label? ==> |Render(items, text)| >= 2 && Render(items, text)[0] == Render(items, text)[1] == '_'
  {
    if items[0].Label? {
      var t := text(items[0].name);
      assert t[0] == t[..2][0] && t[1] == t[..2][1];
    }
  }

  lemma MarkersStart(t: string)
    requires IsMarker(t)
    ensures StartsWith(t, "__")
  {
    assert t[..2] == t[..5][..2];
  }

  /** Reading back a rendered line recovers its items, with every label renamed. */
  lemma {:induction false} DecodeRender(items: seq<Item>, text: string -> string, names: string -> string)
    requires Separated(items) && Unreserved(items)
    requires forall i | 0 <= i < |items| :: items[i].Label? ==> IsMarker(text(items[i].name))
    ensures Decode(Render(items, text), names) == MapLabels(items, x => names(text(x)))
    decreases |items|
  {
    if items != [] {
      DecodeRender(items[1..], text, names);
      var w, r := Render(items, text), Render(items[1..], text);
      match items[0] {
        case Label(name) =>
          MarkerIsFound(text(name), r);
          assert w[..|text(name)|] == text(name) && w[|text(name)|..] == r;
        case Ch(c) =>
          assert w[0] == c && w[1..] == r;
          if MarkerLength(w) > 0 {
            PlainStartIsNoMarker(items, text);
          }
      }
    }
  }

  lemma PlainIsNoMarker(w: string)
    requires !StartsWith(w, "__LAB") && !StartsWith(w, "__REF")
    ensures MarkerLength(w) == 0
  {
    assert MarkerLength(w) > 0 ==> StartsWith(w, "__LAB") || StartsWith(w, "__REF");
  }

  lemma MarkersAllStart(items: seq<Item>, text: string -> string)
    requires forall i | 0 <= i < |items| :: items[i].Label? ==> IsMarker(text(items[i].name))
    ensures forall i | 0 <= i < |items| :: items[i].Label? ==> StartsWith(text(items[i].name), "__")
  {
    forall i | 0 <= i < |items| && items[i].Label? ensures StartsWith(text(items[i].name), "__") {
      MarkersStart(text(items[i].name));
    }
  }

  lemma PlainStartIsNoMarker(items: seq<Item>, text: string -> string)
    requires items != [] && items[0].Ch? && !Begins(items, "__LAB") && !Begins(items, "__REF")
    requires forall i | 0 <= i < |items| :: items[i].Label? ==> IsMarker(text(items[i].name))
    ensures MarkerLength(Render(items, text)) == 0
  {
    MarkersAllStart(items, text);
    PlainStartIsPlain(items, text, "__LAB");
    PlainStartIsPlain(items, text, "__REF");
    PlainIsNoMarker(Render(items, text));
  }

  lemma PlainStartIsPlain(items: seq<Item>, text: string -> string, m: string)
    requires items != [] && items[0].Ch? && !Begins(items, m)
    requires forall i | 0 <= i < |items| :: items[i].Label? ==> StartsWith(text(items[i].name), "__")
    requires m == "__LAB" || m == "__REF"
    ensures !StartsWith(Render(items, text), m)
  {
    var w := Render(items, text);
    if StartsWith(w, m) {
      assert Render(items[1..], text) == w[1..];
      assert w[1..][..4] == m[1..];
      assert m[1] == m[..2][1];
      assert w[..5][0] == w[0];
      RenderedFront(items[1..], text, m[1..]);
    }
  }
}
