/** The comparator's patterns as regular expressions over a line: the leftmost alternative that matches, again
    and again. Labels and erased hashes are exactly what these patterns find. */
module AsmTokens {
  import opened Protocol
  import opened Decimal
  import opened AsmText
  import opened AsmMarkers
  import opened AsmContent
  import opened AsmReading
  import opened AsmRename
  import opened AsmHashes
  import opened AsmBlanks
  import opened AsmReserved

  // ---------------------------------------------------------------- the patterns

  /** The inside of a string: escaped pairs, and characters that are neither quotes nor backslashes. */
  predicate StringBody(b: string) {
    b == "" || (if b[0] == '\\' then |b| > 1 && StringBody(b[2..]) else b[0] != '"' && StringBody(b[1..]))
  }

  predicate IsString(q: string) { |q| > 1 && q[0] == '"' == Last(q) && StringBody(q[1..|q| - 1]) }

  /** A letter, an underscore or a dot, and then also digits and dollar signs. */
  predicate IsSymbol(t: string) {
    && t != "" && (IsLetter(t[0]) || t[0] == '_' || t[0] == '.')
    && forall i | 0 <= i < |t| :: IsLetter(t[i]) || IsDigit(t[i]) || t[i] == '_' || t[i] == '.' || t[i] == '$'
  }

  /** 17h, sixteen lower-case hexadecimal digits, and E. */
  predicate IsInstanceHash(h: string) {
    && |h| == 20 && h[..3] == "17h" && h[19] == 'E'
    && forall i | 3 <= i < 19 :: '0' <= h[i] <= '9' || 'a' <= h[i] <= 'f'
  }

  const LETTERS: string := "abcdefghijklmnopqrstuvwxyz" + "ABCDEFGHIJKLMNOPQRSTUVWXYZ"

  const DIGITS: string := "0123456789"

  lemma LettersExactly(c: char)
    ensures IsLetter(c) <==> c in LETTERS
  {
  }

  lemma DigitsExactly(c: char)
    ensures IsDigit(c) <==> c in DIGITS
    ensures IsHex(c) <==> c in DIGITS + "abcdef"
  {
  }

  /** The characters of a symbol, listed. */
  lemma SymbolCharactersExactly(c: char)
    ensures SymbolStart(c) <==> c in LETTERS || c in "_."
    ensures SymbolPart(c) <==> c in LETTERS || c in DIGITS || c in "_.$"
  {
    LettersExactly(c);
    DigitsExactly(c);
  }

  lemma {:induction false} BodyCloses(b: string, rest: string)
    requires StringBody(b)
    ensures CloseQuote(b + ("\"" + rest)) == Some(|b| + 1)
    decreases |b|
  {
    var s := b + ("\"" + rest);
    if b != "" {
      var step := if b[0] == '\\' then 2 else 1;
      assert s[step..] == b[step..] + ("\"" + rest);
      BodyCloses(b[step..], rest);
    }
  }

  lemma {:induction false} CloseIsBody(s: string)
    requires CloseQuote(s).Some?
    ensures s[CloseQuote(s).value - 1] == '"' && StringBody(s[..CloseQuote(s).value - 1])
    decreases |s|
  {
    if s[0] != '"' {
      var step := if s[0] == '\\' then 2 else 1;
      CloseIsBody(s[step..]);
      var n := CloseQuote(s).value;
      assert s[..n - 1][step..] == s[step..][..n - step - 1];
    }
  }

  /** A quote opens a string exactly if the reading finds its end, and then the string is what is in between. */
  lemma StringsExactly(s: string, q: string)
    requires s != "" && s[0] == '"'
    ensures StartsWith(s, q) && IsString(q) <==>
              CloseQuote(s[1..]).Some? && q == s[..1 + CloseQuote(s[1..]).value]
  {
    if StartsWith(s, q) && IsString(q) {
      var b, rest := q[1..|q| - 1], s[|q|..];
      assert s == q + rest && q == "\"" + b + "\"";
      assert s[1..] == b + ("\"" + rest);
      BodyCloses(b, rest);
    }
    if CloseQuote(s[1..]).Some? && q == s[..1 + CloseQuote(s[1..]).value] {
      CloseIsBody(s[1..]);
      assert q[1..|q| - 1] == s[1..][..|q| - 2];
    }
  }

  lemma {:induction false} HashTailExactly(s: string, p: nat)
    requires p <= 20
    ensures HashTail(s, p) <==> |s| >= 20 - p && forall i | 0 <= i < 20 - p :: HashChar(p + i, s[i])
    decreases 20 - p
  {
    if p < 20 && s != "" {
      HashTailExactly(s[1..], p + 1);
      if |s| >= 20 - p && forall i | 0 <= i < 20 - p :: HashChar(p + i, s[i]) {
        forall i | 0 <= i < 20 - (p + 1) ensures HashChar(p + 1 + i, s[1..][i]) {
          assert HashChar(p + (i + 1), s[i + 1]);
        }
      }
      if HashTail(s, p) {
        forall i | 0 <= i < 20 - p ensures HashChar(p + i, s[i]) {
          if i > 0 {
            assert HashChar(p + 1 + (i - 1), s[1..][i - 1]);
          }
        }
      }
    }
  }

  /** The reading finds a hash exactly where one is written. */
  lemma HashesExactly(s: string)
    ensures HashTail(s, 0) <==> |s| >= 20 && IsInstanceHash(s[..20])
    ensures IsHash(s) <==> IsInstanceHash(s)
  {
    HashTailExactly(s, 0);
    if |s| >= 20 {
      HashStart(s);
      assert |s| == 20 ==> s[..20] == s;
    }
  }

  lemma HashStart(s: string)
    requires |s| >= 20
    ensures IsInstanceHash(s[..20]) <==> forall i | 0 <= i < 20 :: HashChar(i, s[i])
  {
    var h := s[..20];
    if forall i | 0 <= i < 20 :: HashChar(i, s[i]) {
      assert HashChar(0, s[0]) && HashChar(1, s[1]) && HashChar(2, s[2]) && HashChar(19, s[19]);
      assert h[..3] == "17h";
      forall i | 3 <= i < 19 ensures '0' <= h[i] <= '9' || 'a' <= h[i] <= 'f' {
        assert HashChar(i, s[i]);
      }
    }
    if IsInstanceHash(h) {
      assert h[..3][0] == s[0] && h[..3][1] == s[1] && h[..3][2] == s[2];
    }
  }

  // ---------------------------------------------------------------- labels

  datatype Token = Quoted(text: string) | Comment(text: string) | Symbol(text: string) | Other(text: string)

  /** The first token of s: the first pattern that matches at its start, or one character that none matches. */
  ghost predicate FirstToken(s: string, token: Token) {
    && s != "" && StartsWith(s, token.text) && token.text != ""
    && match token
       case Quoted(q) => IsString(q)
       case Comment(c) => s[0] == '#' && c == s
       case Symbol(t) => IsSymbol(t) && forall longer | StartsWith(s, longer) && IsSymbol(longer) :: |longer| <= |t|
       case Other(x) =>
         && |x| == 1 && s[0] != '#' && (forall t | StartsWith(s, t) :: !IsSymbol(t) && !IsString(t))
  }

  /** The tokens of a line, one behind the other. */
  ghost predicate Tokens(s: string, tokens: seq<Token>)
    decreases |tokens|
  {
    if tokens == [] then s == ""
    else FirstToken(s, tokens[0]) && Tokens(s[|tokens[0].text|..], tokens[1..])
  }

  /** A symbol that starts with a dot and an L is a label; everything else is plain. */
  function ItemsOf(token: Token): seq<Item> {
    if token.Symbol? && StartsWith(token.text, ".L") then [Label(token.text)] else Plain(token.text)
  }

  function AllItems(tokens: seq<Token>): seq<Item> {
    if tokens == [] then [] else ItemsOf(tokens[0]) + AllItems(tokens[1..])
  }

  lemma NoLongerSymbol(s: string, longer: string)
    requires StartsWith(s, longer) && |longer| > SymbolLength(s)
    ensures !IsSymbol(longer)
  {
    assert longer[SymbolLength(s)] == s[SymbolLength(s)];
  }

  lemma SymbolsExactly(s: string, t: string)
    requires s != "" && SymbolStart(s[0])
    ensures FirstToken(s, Symbol(t)) <==> t == s[..SymbolLength(s)]
    ensures IsSymbol(s[..SymbolLength(s)])
  {
    var n := SymbolLength(s);
    assert n > 0;
    forall longer | StartsWith(s, longer) && IsSymbol(longer) ensures |longer| <= n {
      if |longer| > n {
        NoLongerSymbol(s, longer);
      }
    }
    assert StartsWith(s, s[..n]) && IsSymbol(s[..n]);
    if FirstToken(s, Symbol(t)) {
      assert |s[..n]| <= |t|;
      assert t == s[..|t|];
    }
  }

  lemma {:induction false} QuietItems(s: string, quiet: nat)
    requires quiet <= |s|
    ensures Items(s, quiet) == Plain(s[..quiet]) + Items(s[quiet..], 0)
  {
    if quiet == 0 {
      assert s[0..] == s && Plain(s[..0]) == [];
    } else {
      QuietItems(s[1..], quiet - 1);
      assert s[1..][quiet - 1..] == s[quiet..] && s[..quiet] == [s[0]] + s[1..][..quiet - 1];
      assert Plain(s[..quiet]) == [Ch(s[0])] + Plain(s[1..][..quiet - 1]);
    }
  }

  /** A plain token is read character by character. */
  lemma PlainToken(s: string, n: nat)
    requires 0 < n <= |s| && Items(s, 0) == [Ch(s[0])] + Items(s[1..], n - 1)
    ensures Items(s, 0) == Plain(s[..n]) + Items(s[n..], 0)
  {
    FirstAndRest(s, n);
    QuietItems(s[1..], n - 1);
    PlainFront(s[0], s[1..][..n - 1]);
    Grouped(Ch(s[0]), Plain(s[1..][..n - 1]), Items(s[n..], 0));
  }

  lemma FirstAndRest(s: string, n: nat)
    requires 0 < n <= |s|
    ensures s[1..][n - 1..] == s[n..] && s[..n] == [s[0]] + s[1..][..n - 1]
  {
  }

  lemma OtherIsPlain(s: string, x: string)
    requires FirstToken(s, Other(x))
    ensures Items(s, 0) == [Ch(s[0])] + Items(s[1..], 0)
  {
    assert x == s[..1] && !IsString(x);
    if s[0] == '"' && CloseQuote(s[1..]).Some? {
      StringsExactly(s, s[..1 + CloseQuote(s[1..]).value]);
    } else if SymbolStart(s[0]) {
      SymbolsExactly(s, s[..SymbolLength(s)]);
    }
  }

  lemma SymbolIs(s: string, t: string)
    requires FirstToken(s, Symbol(t))
    ensures t == s[..SymbolLength(s)] && SymbolStart(s[0]) && s[0] != '"' && s[0] != '#'
    ensures StartsWith(t, ".L") <==> IsLocal(t)
  {
    assert t[0] == s[0];
    SymbolsExactly(s, t);
  }

  lemma TokenItems(s: string, token: Token)
    requires FirstToken(s, token)
    ensures Items(s, 0) == ItemsOf(token) + Items(s[|token.text|..], 0)
  {
    var n := |token.text|;
    assert token.text == s[..n];
    match token
    case Quoted(q) =>
      assert q[0] == s[0];
      StringsExactly(s, q);
      PlainToken(s, n);
    case Comment(c) =>
      PlainToken(s, n);
    case Symbol(t) =>
      SymbolIs(s, t);
      FirstItem(s, 0);
      if !IsLocal(t) {
        PlainToken(s, n);
      }
    case Other(x) =>
      OtherIsPlain(s, x);
      PlainToken(s, n);
  }

  /** The labels of a line are exactly the symbols with a dot and an L in front that the pattern finds. */
  lemma {:induction false} TokensRead(s: string, tokens: seq<Token>)
    requires Tokens(s, tokens)
    ensures Line(s) == AllItems(tokens)
    decreases |tokens|
  {
    if tokens != [] {
      TokenItems(s, tokens[0]);
      TokensRead(s[|tokens[0].text|..], tokens[1..]);
    }
  }

  lemma SomeToken(s: string) returns (token: Token)
    requires s != ""
    ensures FirstToken(s, token)
  {
    if s[0] == '"' && CloseQuote(s[1..]).Some? {
      var q := s[..1 + CloseQuote(s[1..]).value];
      StringsExactly(s, q);
      token := Quoted(q);
    } else if s[0] == '#' {
      token := Comment(s);
    } else if SymbolStart(s[0]) {
      SymbolsExactly(s, s[..SymbolLength(s)]);
      token := Symbol(s[..SymbolLength(s)]);
    } else {
      token := Other(s[..1]);
      forall t | StartsWith(s, t) ensures !IsSymbol(t) && !IsString(t) {
        if s[0] == '"' {
          StringsExactly(s, t);
        }
        assert t != "" ==> t[0] == s[0];
      }
    }
  }

  /** Every line has its tokens. */
  lemma {:induction false} SomeTokens(s: string) returns (tokens: seq<Token>)
    ensures Tokens(s, tokens)
    decreases |s|
  {
    if s == "" {
      tokens := [];
    } else {
      var token := SomeToken(s);
      var rest := SomeTokens(s[|token.text|..]);
      tokens := [token] + rest;
      assert tokens[1..] == rest;
    }
  }

  // ---------------------------------------------------------------- instance hashes

  datatype Piece = Inside(text: string) | Hash(text: string) | Outside(text: string)

  /** The first piece of s: a string, an instance hash, or one character that starts neither. */
  ghost predicate FirstPiece(s: string, piece: Piece) {
    && s != "" && StartsWith(s, piece.text) && piece.text != ""
    && match piece
       case Inside(q) => IsString(q)
       case Hash(h) => IsInstanceHash(h)
       case Outside(x) => |x| == 1 && forall t | StartsWith(s, t) :: !IsString(t) && !IsInstanceHash(t)
  }

  ghost predicate Pieces(s: string, pieces: seq<Piece>)
    decreases |pieces|
  {
    if pieces == [] then s == ""
    else FirstPiece(s, pieces[0]) && Pieces(s[|pieces[0].text|..], pieces[1..])
  }

  /** Every hash replaced by one that shows no digits. */
  function Replaced(pieces: seq<Piece>): string {
    if pieces == [] then ""
    else (if pieces[0].Hash? then "17hHASHE" else pieces[0].text) + Replaced(pieces[1..])
  }

  lemma {:induction false} QuietErased(s: string, quiet: nat)
    requires quiet <= |s|
    ensures Erased(s, quiet) == s[..quiet] + Erased(s[quiet..], 0)
    decreases |s|
  {
    if quiet == 0 {
      assert s[0..] == s && s[..0] == "";
    } else {
      QuietErased(s[1..], quiet - 1);
      assert s[1..][quiet - 1..] == s[quiet..] && s[..quiet] == [s[0]] + s[1..][..quiet - 1];
    }
  }

  lemma StringErased(s: string, q: string)
    requires FirstPiece(s, Inside(q))
    ensures Erased(s, 0) == q + Erased(s[|q|..], 0)
  {
    var n := |q|;
    assert q == s[..n] && q[0] == s[0];
    StringsExactly(s, q);
    FirstAndRest(s, n);
    QuietErased(s[1..], n - 1);
    Grouped(s[0], s[1..][..n - 1], Erased(s[n..], 0));
  }

  lemma HashIsErased(s: string, h: string)
    requires FirstPiece(s, Hash(h))
    ensures Erased(s, 0) == "17hHASHE" + Erased(s[|h|..], 0)
  {
    HashesExactly(s);
    assert h == s[..20] && h[..3][0] == s[0] == '1';
  }

  lemma OutsideIsKept(s: string, x: string)
    requires FirstPiece(s, Outside(x))
    ensures Erased(s, 0) == x + Erased(s[1..], 0)
  {
    HashesExactly(s);
    assert x == s[..1] == [s[0]];
    if s[0] == '"' && CloseQuote(s[1..]).Some? {
      StringsExactly(s, s[..1 + CloseQuote(s[1..]).value]);
    }
    assert |s| >= 20 ==> StartsWith(s, s[..20]);
  }

  lemma PieceErased(s: string, piece: Piece)
    requires FirstPiece(s, piece)
    ensures Erased(s, 0) == (if piece.Hash? then "17hHASHE" else piece.text) + Erased(s[|piece.text|..], 0)
  {
    match piece
    case Inside(q) => StringErased(s, q);
    case Hash(h) => HashIsErased(s, h);
    case Outside(x) => OutsideIsKept(s, x);
  }

  /** Erasing replaces exactly the instance hashes that the pattern finds outside strings. */
  lemma {:induction false} PiecesErased(s: string, pieces: seq<Piece>)
    requires Pieces(s, pieces)
    ensures NormalizeHashes(s) == Replaced(pieces)
    decreases |pieces|
  {
    if pieces != [] {
      PieceErased(s, pieces[0]);
      PiecesErased(s[|pieces[0].text|..], pieces[1..]);
    }
  }

  lemma SomePiece(s: string) returns (piece: Piece)
    requires s != ""
    ensures FirstPiece(s, piece)
  {
    HashesExactly(s);
    if s[0] == '"' && CloseQuote(s[1..]).Some? {
      var q := s[..1 + CloseQuote(s[1..]).value];
      StringsExactly(s, q);
      piece := Inside(q);
    } else if HashTail(s, 0) {
      piece := Hash(s[..20]);
    } else {
      piece := Outside(s[..1]);
      forall t | StartsWith(s, t) ensures !IsString(t) && !IsInstanceHash(t) {
        if s[0] == '"' {
          StringsExactly(s, t);
        }
        assert t != "" ==> t[0] == s[0];
        assert |t| == 20 ==> t == s[..20];
      }
    }
  }

  lemma {:induction false} SomePieces(s: string) returns (pieces: seq<Piece>)
    ensures Pieces(s, pieces)
    decreases |s|
  {
    if s == "" {
      pieces := [];
    } else {
      var piece := SomePiece(s);
      var rest := SomePieces(s[|piece.text|..]);
      pieces := [piece] + rest;
      assert pieces[1..] == rest;
    }
  }
}
