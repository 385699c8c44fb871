/** The token grammar: `constructTokenRegex` builds `[b][^be]+[e]` from a
    begin and an end delimiter, `ReplaceAllFunc` finds its matches from
    left to right, and `stripTokenDelimiters` / `validateTokenReplacement`
    turn a match into a name and guard its replacement. */
module Tokens {
  import opened Types

  /** An ASCII character that is not a letter or a digit: after a backslash
      inside a bracket expression RE2 reads it as itself. */
  predicate Escapable(c: char) {
    (c as int) < 128 && !('a' <= c <= 'z' || 'A' <= c <= 'Z' || '0' <= c <= '9')
  }

  /** A delimiter string that stands for exactly one character wherever the
      pattern places it inside brackets: one ASCII character other than
      `]`, `\`, `^` and `-`, or a backslash before an ASCII character that
      is not a letter or digit. Either way the delimiter is one byte, so the
      byte slicing of `stripTokenDelimiters` removes exactly it. */
  predicate SupportedDelimiter(d: string) {
    || (|d| == 1 && (d[0] as int) < 128 && d[0] !in "]\\^-")
    || (|d| == 2 && d[0] == '\\' && Escapable(d[1]))
  }

  /** A delimiter pair whose pattern parses as intended. `[` followed by `:`
      would open a POSIX class name (`[:...:]`) inside `[^...]`. */
  predicate SupportedPair(tokenBegin: string, tokenEnd: string) {
    && SupportedDelimiter(tokenBegin)
    && SupportedDelimiter(tokenEnd)
    && !(tokenBegin == "[" && tokenEnd == ":")
  }

  /** The character a supported delimiter string stands for: always an
      ASCII character, so one byte of the matched `[]byte`. */
  function DelimiterChar(d: string): (c: char)
    requires SupportedDelimiter(d)
    ensures |d| == 1 ==> c == d[0]
    ensures |d| == 2 ==> d == ['\\', c]
    ensures (c as int) < 128
  {
    d[|d| - 1]
  }

  predicate IsDelimiter(c: char, p: TokenPattern) {
    c == p.begin || c == p.end
  }

  /** What a match of `[b][^be]+[e]` is: the begin character, one or more
      characters that are neither delimiter, then the end character. */
  predicate IsToken(t: string, p: TokenPattern) {
    && |t| >= 3
    && t[0] == p.begin
    && t[|t| - 1] == p.end
    && forall i :: 0 < i < |t| - 1 ==> !IsDelimiter(t[i], p)
  }

  /** Length of the longest prefix of `s` free of delimiters: how far the
      greedy `[^be]+` runs. */
  function RunLen(s: string, p: TokenPattern): (n: nat)
    ensures n <= |s|
    ensures forall i :: 0 <= i < n ==> !IsDelimiter(s[i], p)
    ensures n < |s| ==> IsDelimiter(s[n], p)
  {
    if s == [] || IsDelimiter(s[0], p) then 0 else 1 + RunLen(s[1..], p)
  }

  /** Length of the match of the token pattern that starts at the first
      character of `s`, or 0 when no match starts there. */
  function TokenLen(s: string, p: TokenPattern): (n: nat)
    ensures n <= |s|
    ensures n != 0 ==> IsToken(s[..n], p)
  {
    if |s| > 0 && s[0] == p.begin then
      var q := 1 + RunLen(s[1..], p);
      if 2 <= q < |s| && s[q] == p.end then q + 1 else 0
    else 0
  }

  /** A prefix of `s` is a token exactly when the pattern matches that
      prefix from the start of `s`; so at most one token starts anywhere. */
  lemma TokenLenExact(s: string, p: TokenPattern, n: nat)
    requires 0 < n <= |s|
    ensures TokenLen(s, p) == n <==> IsToken(s[..n], p)
  {
    if IsToken(s[..n], p) {
      var r := RunLen(s[1..], p);
      assert forall i :: 0 <= i < n - 2 ==> s[1..][i] == s[..n][i + 1];
      assert s[1..][n - 2] == s[..n][n - 1];
    }
  }

  /** `constructTokenRegex(tokenBegin, tokenEnd)`: the compiled pattern
      matches, at the start of any text, exactly the tokens delimited by the
      two configured characters. */
  function ConstructTokenRegex(tokenBegin: string, tokenEnd: string): (p: TokenPattern)
    requires SupportedPair(tokenBegin, tokenEnd)
    ensures p.begin == DelimiterChar(tokenBegin) && p.end == DelimiterChar(tokenEnd)
    ensures forall s: string, n: nat {:trigger TokenLen(s, p), s[..n]} ::
      0 < n <= |s| ==> (TokenLen(s, p) == n <==> IsToken(s[..n], p))
  {
    var p := TokenPattern(DelimiterChar(tokenBegin), DelimiterChar(tokenEnd));
    assert forall s: string, n: nat {:trigger TokenLen(s, p), s[..n]} ::
      0 < n <= |s| ==> (TokenLen(s, p) == n <==> IsToken(s[..n], p)) by {
      forall s: string, n: nat | 0 < n <= |s|
        ensures TokenLen(s, p) == n <==> IsToken(s[..n], p)
      {
        TokenLenExact(s, p, n);
      }
    }
    p
  }

  /** Number of `]` characters at the front of `s`. */
  function CloseRun(s: string): (k: nat)
    ensures k <= |s|
    ensures forall i :: 0 <= i < k ==> s[i] == ']'
    ensures k < |s| ==> s[k] != ']'
  {
    if s == [] || s[0] != ']' then 0 else 1 + CloseRun(s[1..])
  }

  /** The pattern `constructTokenRegex(b, "]")` builds when the end
      delimiter is written as a bare `]`: RE2 reads `[b][^b]]+[]]` as the
      begin character, ONE character other than it, then two or more `]`
      (the first `]` closes the negated class early). This is the length of
      its match at the front of `s`, or 0. */
  function BareCloseMatchLen(s: string, b: char): (n: nat)
    ensures n <= |s|
    ensures n != 0 ==> n >= 4 && s[0] == b && s[1] != b && s[2] == ']' && s[3] == ']'
  {
    if |s| >= 2 && s[0] == b && s[1] != b && CloseRun(s[2..]) >= 2 then 2 + CloseRun(s[2..]) else 0
  }

  /** With the bare `]`, the pattern matches nowhere inside a bracketed
      token `[name]` that is not followed by another `]`, so no such token
      is ever replaced. */
  lemma {:induction false} BareCloseMissesTokens(t: string)
    requires IsToken(t, TokenPattern('[', ']'))
    ensures forall i :: 0 <= i < |t| ==> BareCloseMatchLen(t[i..], '[') == 0
  {
    forall i | 0 <= i < |t| ensures BareCloseMatchLen(t[i..], '[') == 0 {
      if i == 0 {
        if |t| == 3 {
          assert t[2..] == [']'];
        } else {
          assert t[2..][0] == t[2] != ']';
        }
      } else {
        assert t[i..][0] == t[i] != '[';
      }
    }
  }

  /** The same delimiters written `[` and `\]` give the intended pattern,
      which takes `[name]` whole. */
  lemma EscapedCloseMatchesName()
    ensures ConstructTokenRegex("[", "\\]") == TokenPattern('[', ']')
    ensures TokenLen("[name]", TokenPattern('[', ']')) == 6
    ensures forall i :: 0 <= i < 6 ==> BareCloseMatchLen("[name]"[i..], '[') == 0
  {
    var s := "[name]";
    var p := TokenPattern('[', ']');
    assert IsToken(s, p);
    assert s[..6] == s;
    TokenLenExact(s, p, 6);
    BareCloseMissesTokens(s);
  }

  /** A scanned text: single characters no match starts at, and matches. */
  datatype Piece = Lit(c: char) | Tok(text: string)

  function PieceText(x: Piece): string {
    match x
    case Lit(c) => [c]
    case Tok(t) => t
  }

  /** Every token of a scan is long enough to strip its delimiters. */
  predicate Strippable(ps: seq<Piece>) {
    forall i :: 0 <= i < |ps| && ps[i].Tok? ==> |ps[i].text| >= 2
  }

  /** The text a scan was taken from. */
  function Join(ps: seq<Piece>): string {
    if ps == [] then [] else PieceText(ps[0]) + Join(ps[1..])
  }

  /** The texts `f` gives the pieces of a scan, concatenated: what
      `ReplaceAllFunc` builds with `f` as the replacement function. */
  function MapJoin(f: Piece -> string, ps: seq<Piece>): string
    decreases |ps|
  {
    if ps == [] then [] else f(ps[0]) + MapJoin(f, ps[1..])
  }

  /** A pass over two scans one after the other is the pass over their
      concatenation. */
  lemma {:induction false} MapJoinAppend(f: Piece -> string, xs: seq<Piece>, ys: seq<Piece>)
    ensures MapJoin(f, xs + ys) == MapJoin(f, xs) + MapJoin(f, ys)
    decreases |xs|
  {
    if xs == [] {
      assert xs + ys == ys;
    } else {
      assert (xs + ys)[1..] == xs[1..] + ys;
      assert (xs + ys)[0] == xs[0];
      MapJoinAppend(f, xs[1..], ys);
    }
  }

  /** Every token piece of a scan is a match of the pattern. */
  predicate AllTokens(ps: seq<Piece>, p: TokenPattern) {
    forall i :: 0 <= i < |ps| && ps[i].Tok? ==> IsToken(ps[i].text, p)
  }

  /** The piece a scan takes at the front of a non-empty text: the match
      starting there, or else the first character. */
  function Head(s: string, p: TokenPattern): (x: Piece)
    requires s != []
    ensures 1 <= |PieceText(x)| <= |s|
  {
    var n := TokenLen(s, p);
    if n > 0 then Tok(s[..n]) else Lit(s[0])
  }

  /** The head piece is the text's prefix of its length. */
  lemma HeadText(s: string, p: TokenPattern)
    requires s != []
    ensures PieceText(Head(s, p)) + s[|PieceText(Head(s, p))|..] == s
  {
    var n := TokenLen(s, p);
    if n > 0 {
      assert s[..n] + s[n..] == s;
    } else {
      assert [s[0]] + s[1..] == s;
    }
  }

  /** The matches `FindAll`/`ReplaceAllFunc` visit, in order: try a match at
      the current position; take it and continue after it, or keep the
      character and move one on. */
  function Scan(s: string, p: TokenPattern): seq<Piece>
    decreases |s|
  {
    if s == [] then []
    else
      var head := Head(s, p);
      [head] + Scan(s[|PieceText(head)|..], p)
  }

  /** A scan loses and adds nothing: its pieces rejoin to the text. */
  lemma {:induction false} ScanJoin(s: string, p: TokenPattern)
    ensures Join(Scan(s, p)) == s
    decreases |s|
  {
    if s != [] {
      var head := Head(s, p);
      var rest := s[|PieceText(head)|..];
      HeadText(s, p);
      ScanJoin(rest, p);
      assert Scan(s, p)[1..] == Scan(rest, p);
    }
  }

  /** Every token piece of a scan is a match of the pattern. */
  lemma {:induction false} ScanTokens(s: string, p: TokenPattern)
    ensures AllTokens(Scan(s, p), p)
    decreases |s|
  {
    if s != [] {
      var head := Head(s, p);
      var rest := s[|PieceText(head)|..];
      ScanTokens(rest, p);
      assert Scan(s, p)[1..] == Scan(rest, p);
    }
  }

  /** Leftmost matching: no match starts at a character the scan kept as a
      literal, so no token is skipped. */
  lemma ScanLeftmost(s: string, p: TokenPattern, i: nat)
    requires i < |Scan(s, p)| && Scan(s, p)[i].Lit?
    ensures TokenLen(Join(Scan(s, p)[i..]), p) == 0
  {
    var r := ScanSuffix(s, p, i);
    LiteralHead(r, p);
  }

  /** Every suffix of a scan is the scan of a suffix of the text. */
  lemma {:induction false} ScanSuffix(s: string, p: TokenPattern, i: nat) returns (r: string)
    requires i <= |Scan(s, p)|
    ensures Scan(s, p)[i..] == Scan(r, p)
    decreases |s|
  {
    if i == 0 {
      r := s;
    } else {
      var rest := ScanTail(s, p);
      DropFirst(Head(s, p), Scan(rest, p), i);
      r := ScanSuffix(rest, p, i - 1);
    }
  }

  lemma DropFirst(x: Piece, ys: seq<Piece>, i: nat)
    requires 1 <= i <= |ys| + 1
    ensures ([x] + ys)[i..] == ys[i - 1..]
  {
  }

  /** After the head piece, a scan goes on with the rest of the text. */
  lemma ScanTail(s: string, p: TokenPattern) returns (rest: string)
    requires s != []
    ensures |rest| < |s|
    ensures rest == s[|PieceText(Head(s, p))|..]
    ensures Scan(s, p) == [Head(s, p)] + Scan(rest, p)
  {
    rest := s[|PieceText(Head(s, p))|..];
  }

  /** A scan that starts with a kept character starts where no match
      does. */
  lemma LiteralHead(s: string, p: TokenPattern)
    requires 0 < |Scan(s, p)| && Scan(s, p)[0].Lit?
    ensures TokenLen(Join(Scan(s, p)[0..]), p) == 0
  {
    assert Scan(s, p)[0..] == Scan(s, p);
    ScanJoin(s, p);
    assert Head(s, p).Lit?;
  }

  /** A text in which no token starts scans to literals only. */
  lemma {:induction false} ScanWithoutTokens(s: string, p: TokenPattern)
    requires forall i :: 0 <= i < |s| ==> TokenLen(s[i..], p) == 0
    ensures forall i :: 0 <= i < |Scan(s, p)| ==> Scan(s, p)[i].Lit?
    decreases |s|
  {
    if s != [] {
      assert s[0..] == s;
      forall i | 0 <= i < |s[1..]| ensures TokenLen(s[1..][i..], p) == 0 {
        assert s[1..][i..] == s[i + 1..];
      }
      ScanWithoutTokens(s[1..], p);
    }
  }

  /** A stretch without a begin character is scanned character by
      character, whatever follows it. */
  lemma ScanLiteralPrefix(a: string, rest: string, p: TokenPattern)
    requires forall i :: 0 <= i < |a| ==> a[i] != p.begin
    ensures Scan(a + rest, p) == Scan(a, p) + Scan(rest, p)
  {
    NoBeginAt(a, p);
    ScanLiteralPrefixRec(a, rest, p);
  }

  /** `a` holds no begin character, one character at a time. */
  predicate NoBegin(a: string, p: TokenPattern)
    decreases |a|
  {
    a == [] || (a[0] != p.begin && NoBegin(a[1..], p))
  }

  lemma {:induction false} NoBeginAt(a: string, p: TokenPattern)
    requires forall i :: 0 <= i < |a| ==> a[i] != p.begin
    ensures NoBegin(a, p)
    decreases |a|
  {
    if a != [] {
      NoBeginAt(a[1..], p);
    }
  }

  lemma {:induction false} ScanLiteralPrefixRec(a: string, rest: string, p: TokenPattern)
    requires NoBegin(a, p)
    ensures Scan(a + rest, p) == Scan(a, p) + Scan(rest, p)
    decreases |a|
  {
    if a != [] {
      ScanLiteralCons(a, rest, p);
      ScanLiteralPrefixRec(a[1..], rest, p);
      var x, y, z := [Lit(a[0])], Scan(a[1..], p), Scan(rest, p);
      assert x + (y + z) == (x + y) + z;
    } else {
      assert a + rest == rest;
    }
  }

  /** A first character that is not a begin character is kept as it is,
      with or without a suffix after it. */
  lemma ScanLiteralCons(a: string, rest: string, p: TokenPattern)
    requires a != [] && a[0] != p.begin
    ensures Scan(a + rest, p) == [Lit(a[0])] + Scan(a[1..] + rest, p)
    ensures Scan(a, p) == [Lit(a[0])] + Scan(a[1..], p)
  {
    var s := a + rest;
    assert s[0] == a[0];
    assert Head(s, p) == Lit(a[0]);
    assert s[1..] == a[1..] + rest;
    assert Head(a, p) == Lit(a[0]);
  }

  /** A token at the front is taken whole, and scanning resumes after it. */
  lemma ScanTokenPrefix(t: string, rest: string, p: TokenPattern)
    requires IsToken(t, p)
    ensures Scan(t + rest, p) == [Tok(t)] + Scan(rest, p)
  {
    var s := t + rest;
    assert s[..|t|] == t && s[|t|..] == rest;
    TokenLenExact(s, p, |t|);
  }

  /** A text without a begin character holds no token. */
  lemma ScanNoBegin(s: string, p: TokenPattern)
    requires forall i :: 0 <= i < |s| ==> s[i] != p.begin
    ensures forall i :: 0 <= i < |Scan(s, p)| ==> Scan(s, p)[i].Lit?
  {
    forall i | 0 <= i < |s| ensures TokenLen(s[i..], p) == 0 {
      assert s[i..][0] == s[i];
    }
    ScanWithoutTokens(s, p);
  }

  /** A text holding one token between two stretches without a begin
      character scans to the first stretch's characters, the token, and the
      second stretch's characters. */
  lemma OneTokenScan(a: string, t: string, c: string, p: TokenPattern)
    requires forall i :: 0 <= i < |a| ==> a[i] != p.begin
    requires forall i :: 0 <= i < |c| ==> c[i] != p.begin
    requires IsToken(t, p)
    ensures Scan(a + t + c, p) == Scan(a, p) + ([Tok(t)] + Scan(c, p))
    ensures forall i :: 0 <= i < |Scan(a, p)| ==> Scan(a, p)[i].Lit?
    ensures forall i :: 0 <= i < |Scan(c, p)| ==> Scan(c, p)[i].Lit?
    ensures Join(Scan(a, p)) == a && Join(Scan(c, p)) == c
  {
    OneTokenSplit(a, t, c, p);
    ScanNoBegin(a, p);
    ScanNoBegin(c, p);
    ScanJoin(a, p);
    ScanJoin(c, p);
  }

  lemma OneTokenSplit(a: string, t: string, c: string, p: TokenPattern)
    requires forall i :: 0 <= i < |a| ==> a[i] != p.begin
    requires IsToken(t, p)
    ensures Scan(a + t + c, p) == Scan(a, p) + ([Tok(t)] + Scan(c, p))
  {
    assert a + t + c == a + (t + c);
    ScanLiteralPrefix(a, t + c, p);
    ScanTokenPrefix(t, c, p);
  }

  /** An empty pair `be` is not a token. */
  lemma EmptyPairIsNoToken(p: TokenPattern)
    ensures Scan([p.begin, p.end], p) == [Lit(p.begin), Lit(p.end)]
  {
    var s := [p.begin, p.end];
    assert RunLen(s[1..], p) == 0;
    assert TokenLen(s, p) == 0;
    assert Head(s, p) == Lit(p.begin);
    var t := s[1..];
    assert TokenLen(t, p) == 0;
    assert Head(t, p) == Lit(p.end);
    assert Scan(t, p) == [Lit(p.end)] + Scan(t[1..], p);
  }

  /** In `b b x e` only the inner `b x e` is a token: matches are innermost. */
  lemma InnermostMatch(p: TokenPattern, x: char)
    requires !IsDelimiter(x, p)
    ensures Scan([p.begin, p.begin, x, p.end], p) == [Lit(p.begin), Tok([p.begin, x, p.end])]
  {
    var s := [p.begin, p.begin, x, p.end];
    assert RunLen(s[1..], p) == 0;
    assert TokenLen(s, p) == 0;
    var t := s[1..];
    assert Scan(s, p) == [Lit(p.begin)] + Scan(t, p);
    assert RunLen(t[1..], p) == 1 + RunLen(t[2..], p);
    assert RunLen(t[2..], p) == 0;
    assert TokenLen(t, p) == 3;
    assert t[..3] == t && t[3..] == [];
    assert Scan(t, p) == [Tok(t)] + Scan([], p);
  }

  /** `stripTokenDelimiters`: drops the first and the last character. The
      source slices bytes; with the ASCII delimiters `DelimiterChar` yields
      the first and last byte of a token are exactly its delimiters. */
  function StripTokenDelimiters(token: string): (name: string)
    requires |token| >= 2
    ensures |name| == |token| - 2
    ensures forall i :: 0 <= i < |name| ==> name[i] == token[i + 1]
  {
    token[1..|token| - 1]
  }

  /** The name of a token is non-empty, free of delimiters, and rebuilds
      the token when the delimiters are put back around it. */
  lemma StripRoundTrip(t: string, p: TokenPattern)
    requires IsToken(t, p)
    ensures [p.begin] + StripTokenDelimiters(t) + [p.end] == t
    ensures StripTokenDelimiters(t) != []
    ensures forall i :: 0 <= i < |StripTokenDelimiters(t)| ==> !IsDelimiter(StripTokenDelimiters(t)[i], p)
  {
    var name := StripTokenDelimiters(t);
    assert forall i :: 0 <= i < |name| ==> name[i] == t[i + 1];
  }

  /** `validateTokenReplacement`: an empty replacement is refused and the
      token kept; any other replacement is used as it is. */
  function ValidateTokenReplacement(originalToken: string, replacement: string): (r: string)
    ensures replacement == [] ==> r == originalToken
    ensures replacement != [] ==> r == replacement
  {
    if replacement == [] then originalToken else replacement
  }

  /** So a substitution never erases a token. */
  lemma ReplacementNeverErases(originalToken: string, replacement: string)
    requires originalToken != []
    ensures ValidateTokenReplacement(originalToken, replacement) != []
  {
  }
}
