/** Blanks around a line: how they are read, and how the stripped text lies between them. */
module AsmBlanks {
  import opened Protocol
  import opened Decimal
  import opened AsmText
  import opened AsmMarkers
  import opened AsmContent
  import opened AsmReading
  import opened AsmFile

  // ---------------------------------------------------------------- blanks around a line

  predicate Blank(s: string) { forall i | 0 <= i < |s| :: IsSpace(s[i]) }

  lemma SpaceIsPlain(c: char)
    requires IsSpace(c)
    ensures !SymbolPart(c) && c != '"' && c != '#' && c != '\\'
  {
  }

  lemma BlankTail(s: string)
    requires Blank(s) && s != []
    ensures IsSpace(s[0]) && Blank(s[1..])
  {
  }

  lemma BlankFirst(l: string, s: string)
    requires Blank(l) && l != []
    ensures Items(l + s, 0) == [Ch(l[0])] + Items(l[1..] + s, 0)
  {
    BlankTail(l);
    SpaceIsPlain(l[0]);
    Slices(l, s, 1);
    FirstItem(l + s, 0);
  }

  lemma {:induction false} BlanksRead(l: string, s: string)
    requires Blank(l)
    ensures Items(l + s, 0) == Plain(l) + Items(s, 0)
  {
    if l == [] {
      assert l + s == s && Plain(l) == [];
    } else {
      BlankTail(l);
      BlanksRead(l[1..], s);
      BlankFirst(l, s);
      PlainBehind(l, Items(s, 0));
    }
  }

  lemma {:induction false} QuietBlanks(r: string, quiet: nat)
    requires Blank(r) && quiet <= |r|
    ensures Items(r, quiet) == Plain(r)
  {
    if r != [] {
      BlankTail(r);
      SpaceIsPlain(r[0]);
      FirstItem(r, quiet);
      QuietBlanks(r[1..], NextQuiet(r, quiet));
      assert Plain(r) == [Ch(r[0])] + Plain(r[1..]);
    }
  }

  lemma {:induction false} BlanksCloseNothing(r: string)
    requires Blank(r)
    ensures CloseQuote(r) == None
  {
    if r != [] {
      BlankTail(r);
      SpaceIsPlain(r[0]);
      BlanksCloseNothing(r[1..]);
    }
  }

  lemma {:induction false} CloseBeforeBlanks(s: string, r: string)
    requires Blank(r)
    ensures CloseQuote(s + r) == CloseQuote(s)
  {
    if s == [] {
      assert s + r == r;
      BlanksCloseNothing(r);
    } else if s == "\\" {
      EscapedBlank(r);
    } else if s[0] != '"' {
      var step := if s[0] == '\\' then 2 else 1;
      QuoteStep(s, r, step);
      QuoteStep(s, "", step);
      assert s + "" == s && s[step..] + "" == s[step..];
      CloseBeforeBlanks(s[step..], r);
    }
  }

  lemma EscapedBlank(r: string)
    requires Blank(r)
    ensures CloseQuote("\\" + r) == None && CloseQuote("\\") == None
  {
    if r != [] {
      BlankTail(r);
      BlanksCloseNothing(r[1..]);
      assert ("\\" + r)[2..] == r[1..];
    }
  }

  lemma {:induction false} SymbolBeforeBlanks(s: string, r: string)
    requires Blank(r)
    ensures SymbolLength(s + r) == SymbolLength(s)
  {
    if s == [] {
      assert s + r == r;
      if r != [] {
        BlankTail(r);
        SpaceIsPlain(r[0]);
      }
    } else {
      assert (s + r)[1..] == s[1..] + r;
      SymbolBeforeBlanks(s[1..], r);
    }
  }

  function Least(a: nat, b: nat): nat { if a < b then a else b }

  lemma NextBeforeBlanks(s: string, r: string, quiet: nat)
    requires Blank(r) && s != [] && quiet <= |s| + |r|
    ensures Least(NextQuiet(s + r, quiet), |s| - 1) == NextQuiet(s, Least(quiet, |s|))
  {
    SymbolBeforeBlanks(s, r);
    Slices(s, r, 1);
    CloseBeforeBlanks(s[1..], r);
  }

  lemma StartsBeforeBlanks(s: string, r: string, quiet: nat)
    requires Blank(r) && s != [] && quiet <= |s| + |r|
    ensures SymbolLength(s + r) == SymbolLength(s)
    ensures StartsLabel(s + r, quiet) <==> StartsLabel(s, Least(quiet, |s|))
  {
    SymbolBeforeBlanks(s, r);
    Slices(s, r, SymbolLength(s));
  }

  /** Blanks behind a line are read as blanks and change nothing before them. */
  lemma {:induction false} ReadBeforeBlanks(s: string, r: string, quiet: nat)
    requires Blank(r) && quiet <= |s| + |r|
    ensures Items(s + r, quiet) == Items(s, Least(quiet, |s|)) + Plain(r)
    decreases |s|
  {
    if s == [] {
      assert s + r == r;
      QuietBlanks(r, quiet);
    } else {
      StartsBeforeBlanks(s, r, quiet);
      if StartsLabel(s, Least(quiet, |s|)) {
        ReadBeforeBlanks(s[SymbolLength(s)..], r, 0);
        LabelBeforeBlanks(s, r, quiet);
      } else {
        NextBeforeBlanks(s, r, quiet);
        Slices(s, r, 1);
        ReadBeforeBlanks(s[1..], r, NextQuiet(s + r, quiet));
        ChBeforeBlanks(s, r, quiet);
      }
    }
  }

  lemma ChBeforeBlanks(s: string, r: string, quiet: nat)
    requires s != [] && quiet <= |s| + |r| && (s + r)[1..] == s[1..] + r
    requires !StartsLabel(s, Least(quiet, |s|)) && !StartsLabel(s + r, quiet)
    requires Items(s[1..] + r, NextQuiet(s + r, quiet)) == Items(s[1..], NextQuiet(s, Least(quiet, |s|))) + Plain(r)
    ensures Items(s + r, quiet) == Items(s, Least(quiet, |s|)) + Plain(r)
  {
    FirstItem(s + r, quiet);
    FirstItem(s, Least(quiet, |s|));
    Grouped(Ch(s[0]), Items(s[1..], NextQuiet(s, Least(quiet, |s|))), Plain(r));
  }

  lemma Grouped<T>(x: T, a: seq<T>, b: seq<T>)
    ensures [x] + (a + b) == [x] + a + b
  {
  }

  lemma LabelBeforeBlanks(s: string, r: string, quiet: nat)
    requires s != [] && quiet <= |s| + |r| && SymbolLength(s + r) == SymbolLength(s)
    requires StartsLabel(s, Least(quiet, |s|)) && StartsLabel(s + r, quiet)
    requires var rest := s[SymbolLength(s)..]; Items(rest + r, 0) == Items(rest, 0) + Plain(r)
    ensures Items(s + r, quiet) == Items(s, Least(quiet, |s|)) + Plain(r)
  {
    var n := SymbolLength(s);
    Slices(s, r, n);
    FirstItem(s + r, quiet);
    FirstItem(s, Least(quiet, |s|));
    Grouped(Label(s[..n]), Items(s[n..], 0), Plain(r));
  }

  // ---------------------------------------------------------------- a line and its stripped text

  /** The text of a line between the blanks around it. */
  predicate StrippedAs(line: string, l: string, s: string, r: string) {
    line == l + (s + r) && Blank(l) && Blank(r) && (s != [] ==> !IsSpace(s[0]) && !IsSpace(Last(s)))
  }

  lemma {:induction false} LeftBlanks(line: string) returns (l: string)
    ensures Blank(l) && line == l + TrimLeft(line)
    ensures TrimLeft(line) != [] ==> !IsSpace(TrimLeft(line)[0])
  {
    if line != [] && IsSpace(line[0]) {
      var k := LeftBlanks(line[1..]);
      l := [line[0]] + k;
      assert line == [line[0]] + (k + TrimLeft(line));
    } else {
      l := "";
    }
  }

  lemma {:induction false} RightBlanks(s: string) returns (r: string)
    ensures Blank(r) && s == TrimRight(s) + r
    ensures TrimRight(s) != [] ==> !IsSpace(Last(TrimRight(s)))
    ensures TrimRight(s) != [] ==> TrimRight(s)[0] == s[0]
  {
    if s != [] && IsSpace(Last(s)) {
      var k := RightBlanks(s[..|s| - 1]);
      r := k + [Last(s)];
      assert s == s[..|s| - 1] + [Last(s)] == TrimRight(s) + (k + [Last(s)]);
    } else {
      r := "";
    }
  }

  lemma Stripping(line: string) returns (l: string, r: string)
    ensures StrippedAs(line, l, Strip(line), r)
  {
    l := LeftBlanks(line);
    r := RightBlanks(TrimLeft(line));
  }

  lemma {:induction false} TrimBlanks(l: string, s: string)
    requires Blank(l) && s != [] && !IsSpace(s[0])
    ensures TrimLeft(l + s) == s
  {
    if l == [] {
      assert l + s == s;
    } else {
      BlankTail(l);
      assert (l + s)[1..] == l[1..] + s;
      TrimBlanks(l[1..], s);
    }
  }

  lemma {:induction false} TrimBlanksBehind(s: string, r: string)
    requires Blank(r) && s != [] && !IsSpace(Last(s))
    ensures TrimRight(s + r) == s
  {
    if r == [] {
      assert s + r == s;
    } else {
      assert Last(s + r) == Last(r) && (s + r)[..|s + r| - 1] == s + r[..|r| - 1] && IsSpace(r[|r| - 1]);
      TrimBlanksBehind(s, r[..|r| - 1]);
    }
  }

  lemma StripOf(line: string, l: string, s: string, r: string)
    requires StrippedAs(line, l, s, r) && s != []
    ensures Strip(line) == s && TrimLeft(line) == s + r
  {
    assert (s + r)[0] == s[0];
    TrimBlanks(l, s + r);
    TrimBlanksBehind(s, r);
  }
}
