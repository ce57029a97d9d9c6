/** The pieces of Rust's string library that the Linux back end relies on:
    `find`, `split`, `lines`, `split_whitespace`, `contains`, `to_lowercase`
    (on ASCII letters) and the regular expression `"([^"]*)"` used to pull
    quoted strings out of `xprop` output. */
module Text {
  import opened Common

  // ---------------------------------------------------------------------
  // Searching for a character

  /** Position of the first `c` in `s`, like `str::find`. */
  function IndexOf(s: string, c: char): (r: Option<nat>)
    ensures r.Some? ==> r.value < |s| && s[r.value] == c && c !in s[..r.value]
    ensures r.None? <==> c !in s
  {
    if s == [] then None
    else if s[0] == c then Some(0)
    else match IndexOf(s[1..], c)
      case None => None
      case Some(i) =>
        assert s[..i + 1] == [s[0]] + s[1..][..i];
        Some(i + 1)
  }

  /** The first `c` after a `c`-free prefix is the one right after it. */
  lemma IndexOfAfterPrefix(p: string, c: char, rest: string)
    requires c !in p
    ensures IndexOf(p + [c] + rest, c) == Some(|p|)
  {
    var s := p + [c] + rest;
    assert s[..|p|] == p;
    assert s[|p|] == c;
  }

  /** Position of the last `c` in `s`, like `str::rfind`. */
  function LastIndexOf(s: string, c: char): (r: Option<nat>)
    ensures r.Some? ==> r.value < |s| && s[r.value] == c && c !in s[r.value + 1..]
    ensures r.None? <==> c !in s
  {
    if s == [] then None
    else if s[|s| - 1] == c then Some(|s| - 1)
    else
      var init := s[..|s| - 1];
      assert s == init + [s[|s| - 1]];
      match LastIndexOf(init, c)
      case None => None
      case Some(i) =>
        assert s[i + 1..] == init[i + 1..] + [s[|s| - 1]];
        Some(i)
  }

  // ---------------------------------------------------------------------
  // `split` and its inverse

  /** `s.split(c)`: the pieces between the occurrences of `c`, in order. */
  function SplitOn(s: string, c: char): (r: seq<string>)
    ensures |r| >= 1
    ensures forall k :: 0 <= k < |r| ==> c !in r[k]
    decreases |s|
  {
    match IndexOf(s, c)
    case None => [s]
    case Some(i) => [s[..i]] + SplitOn(s[i + 1..], c)
  }

  /** One step of `split`: the piece before the first `c`, then the rest. */
  lemma SplitOnUnfold(s: string, c: char, i: nat)
    requires IndexOf(s, c) == Some(i)
    ensures SplitOn(s, c) == [s[..i]] + SplitOn(s[i + 1..], c)
  {
  }

  /** `pieces.join(c)`. */
  function Join(pieces: seq<string>, c: char): string
    requires pieces != []
  {
    if |pieces| == 1 then pieces[0] else pieces[0] + [c] + Join(pieces[1..], c)
  }

  /** Joining the pieces of a split gives the original text back. */
  lemma {:induction false} JoinSplitOn(s: string, c: char)
    ensures Join(SplitOn(s, c), c) == s
    decreases |s|
  {
    match IndexOf(s, c)
    case None =>
    case Some(i) =>
      var tail := SplitOn(s[i + 1..], c);
      assert SplitOn(s, c) == [s[..i]] + tail;
      assert SplitOn(s, c)[1..] == tail;
      JoinSplitOn(s[i + 1..], c);
      assert s == s[..i] + [c] + s[i + 1..];
  }

  /** Splitting a join of `c`-free pieces gives the pieces back. */
  lemma {:induction false} SplitOnJoin(pieces: seq<string>, c: char)
    requires pieces != []
    requires forall k :: 0 <= k < |pieces| ==> c !in pieces[k]
    ensures SplitOn(Join(pieces, c), c) == pieces
  {
    if |pieces| > 1 {
      SplitOnJoin(pieces[1..], c);
      SplitOnAfterPiece(pieces[0], c, Join(pieces[1..], c));
      assert pieces == [pieces[0]] + pieces[1..];
    }
  }

  /** A `c`-free piece followed by `c` is the first piece of the split. */
  lemma SplitOnAfterPiece(p: string, c: char, rest: string)
    requires c !in p
    ensures SplitOn(p + [c] + rest, c) == [p] + SplitOn(rest, c)
  {
    var s := p + [c] + rest;
    IndexOfAfterPrefix(p, c, rest);
    assert s[..|p|] == p;
    assert s[|p| + 1..] == rest;
    SplitOnUnfold(s, c, |p|);
  }

  /** A separator splits the text in two independently. */
  lemma {:induction false} SplitOnAround(a: string, c: char, b: string)
    ensures SplitOn(a + [c] + b, c) == SplitOn(a, c) + SplitOn(b, c)
    decreases |a|
  {
    match IndexOf(a, c)
    case None =>
      var s := a + [c] + b;
      IndexOfAfterPrefix(a, c, b);
      assert s[..|a|] == a;
      assert s[|a| + 1..] == b;
      SplitOnUnfold(s, c, |a|);
    case Some(i) =>
      SplitOnAround(a[i + 1..], c, b);
      SplitOnAroundStep(a, c, b, i);
  }

  /** The step of SplitOnAround past the first separator inside `a`. */
  lemma SplitOnAroundStep(a: string, c: char, b: string, i: nat)
    requires IndexOf(a, c) == Some(i)
    requires SplitOn(a[i + 1..] + [c] + b, c) == SplitOn(a[i + 1..], c) + SplitOn(b, c)
    ensures SplitOn(a + [c] + b, c) == SplitOn(a, c) + SplitOn(b, c)
  {
    var tail := a[i + 1..] + [c] + b;
    SplitOnPastSeparator(a, c, b, i);
    SplitOnUnfold(a, c, i);
    LeadingPieceRegroups(a[..i], SplitOn(a[i + 1..], c), SplitOn(b, c),
                         SplitOn(a + [c] + b, c), SplitOn(a, c), SplitOn(tail, c));
  }

  lemma SplitOnPastSeparator(a: string, c: char, b: string, i: nat)
    requires IndexOf(a, c) == Some(i)
    ensures SplitOn(a + [c] + b, c) == [a[..i]] + SplitOn(a[i + 1..] + [c] + b, c)
  {
    var s := a + [c] + b;
    var tail := a[i + 1..] + [c] + b;
    assert s == a[..i] + [c] + tail;
    IndexOfAfterPrefix(a[..i], c, tail);
    assert s[..i] == a[..i];
    assert s[i + 1..] == tail;
    SplitOnUnfold(s, c, i);
  }

  /** The piece before the first separator of `a` leads both the pieces of
      `a + [c] + b` (followed by those of the tail `t`) and the pieces of `a`
      (followed by `xs`): when the tail splits as `xs` then `ys`, the whole
      splits as the pieces of `a` then `ys`. */
  lemma LeadingPieceRegroups<T>(p: T, xs: seq<T>, ys: seq<T>, s: seq<T>, a: seq<T>, t: seq<T>)
    requires s == [p] + t && t == xs + ys && a == [p] + xs
    ensures s == a + ys
  {
  }

  // ---------------------------------------------------------------------
  // `lines`

  /** Drops the `\r` of a `\r\n` line ending. */
  function StripCarriageReturn(line: string): string
  {
    if line != [] && line[|line| - 1] == '\r' then line[..|line| - 1] else line
  }

  /** `s.lines()`: the text split at `\n` (and at `\r\n`), where the final
      line ending is optional and an empty text has no lines. */
  function Lines(s: string): (r: seq<string>)
    ensures forall k :: 0 <= k < |r| ==> '\n' !in r[k]
    decreases |s|
  {
    if s == [] then []
    else match IndexOf(s, '\n')
      case None => [s]
      case Some(i) => [StripCarriageReturn(s[..i])] + Lines(s[i + 1..])
  }

  /** Every line followed by `\n`: the text `lines` reads back. */
  function Terminated(lines: seq<string>): string
  {
    if lines == [] then [] else lines[0] + "\n" + Terminated(lines[1..])
  }

  /** Reading back lines that each end in `\n` gives the same lines, provided
      no line holds a `\n` or ends in `\r`. */
  lemma {:induction false} LinesOfTerminated(lines: seq<string>)
    requires forall k :: 0 <= k < |lines| ==> '\n' !in lines[k]
    requires forall k :: 0 <= k < |lines| ==> StripCarriageReturn(lines[k]) == lines[k]
    ensures Lines(Terminated(lines)) == lines
  {
    if lines != [] {
      var rest := Terminated(lines[1..]);
      var s := lines[0] + "\n" + rest;
      IndexOfAfterPrefix(lines[0], '\n', rest);
      assert s[..|lines[0]|] == lines[0];
      assert s[|lines[0]| + 1..] == rest;
      assert s == Terminated(lines);
      assert Lines(s) == [StripCarriageReturn(lines[0])] + Lines(rest);
      LinesOfTerminated(lines[1..]);
      assert lines == [lines[0]] + lines[1..];
    }
  }

  // ---------------------------------------------------------------------
  // `split_whitespace`

  /** `char::is_whitespace`: the Unicode White_Space property. */
  predicate IsWhitespace(c: char)
  {
    ('\U{0009}' <= c <= '\U{000D}') || c == '\U{0020}' || c == '\U{0085}' || c == '\U{00A0}'
    || c == '\U{1680}' || ('\U{2000}' <= c <= '\U{200A}') || c == '\U{2028}'
    || c == '\U{2029}' || c == '\U{202F}' || c == '\U{205F}' || c == '\U{3000}'
  }

  predicate AllWhitespace(s: string)
  {
    forall k :: 0 <= k < |s| ==> IsWhitespace(s[k])
  }

  predicate NoWhitespace(s: string)
  {
    forall k :: 0 <= k < |s| ==> !IsWhitespace(s[k])
  }

  /** Length of the run of non-whitespace characters that starts `s`. */
  function RunLength(s: string): (n: nat)
    ensures n <= |s|
    ensures NoWhitespace(s[..n])
    ensures n < |s| ==> IsWhitespace(s[n])
  {
    if s == [] || IsWhitespace(s[0]) then 0
    else
      var n := 1 + RunLength(s[1..]);
      assert s[..n] == [s[0]] + s[1..][..n - 1];
      n
  }

  /** `s.split_whitespace()`: the maximal runs of non-whitespace characters. */
  function Tokens(s: string): (r: seq<string>)
    ensures forall k :: 0 <= k < |r| ==> r[k] != [] && NoWhitespace(r[k])
    decreases |s|
  {
    if s == [] then []
    else if IsWhitespace(s[0]) then Tokens(s[1..])
    else
      var n := RunLength(s);
      [s[..n]] + Tokens(s[n..])
  }

  /** `split_whitespace().next().unwrap_or_default()`. */
  function FirstToken(s: string): (r: string)
    ensures NoWhitespace(r)
    ensures r == "" <==> AllWhitespace(s)
  {
    TokensEmpty(s);
    var ts := Tokens(s);
    if ts == [] then "" else ts[0]
  }

  /** `split_whitespace().last()`. */
  function LastToken(s: string): (r: Option<string>)
    ensures r.Some? ==> r.value != "" && NoWhitespace(r.value)
    ensures r.None? <==> AllWhitespace(s)
  {
    TokensEmpty(s);
    var ts := Tokens(s);
    if ts == [] then None else Some(ts[|ts| - 1])
  }

  /** A text has no tokens exactly when it is all whitespace. */
  lemma {:induction false} TokensEmpty(s: string)
    ensures Tokens(s) == [] <==> AllWhitespace(s)
    decreases |s|
  {
    if s != [] {
      if IsWhitespace(s[0]) {
        TokensEmpty(s[1..]);
        if AllWhitespace(s[1..]) {
          forall k | 0 <= k < |s| ensures IsWhitespace(s[k]) {
            if k > 0 { assert s[k] == s[1..][k - 1]; }
          }
        }
      }
    }
  }

  /** The run length of a token followed by whitespace or nothing is the
      token's length. */
  lemma RunLengthOfToken(tok: string, rest: string)
    requires tok != [] && NoWhitespace(tok)
    requires rest == [] || IsWhitespace(rest[0])
    ensures RunLength(tok + rest) == |tok|
  {
    var s := tok + rest;
    var n := RunLength(s);
    assert s[..|tok|] == tok;
    assert |tok| < |s| ==> s[|tok|] == rest[0];
  }

  /** The first token is what follows the leading whitespace, up to the
      next whitespace. */
  lemma {:induction false} FirstTokenOf(lead: string, tok: string, rest: string)
    requires AllWhitespace(lead)
    requires tok != [] && NoWhitespace(tok)
    requires rest == [] || IsWhitespace(rest[0])
    ensures FirstToken(lead + tok + rest) == tok
    decreases |lead|
  {
    var s := lead + tok + rest;
    if lead == [] {
      assert s == tok + rest;
      RunLengthOfToken(tok, rest);
      assert s[..|tok|] == tok;
    } else {
      assert IsWhitespace(s[0]);
      assert s[1..] == lead[1..] + tok + rest;
      FirstTokenOf(lead[1..], tok, rest);
    }
  }

  /** The last token is what precedes the trailing whitespace, back to the
      previous whitespace. */
  lemma {:induction false} LastTokenOf(init: string, tok: string, trail: string)
    requires AllWhitespace(trail)
    requires tok != [] && NoWhitespace(tok)
    requires init == [] || IsWhitespace(init[|init| - 1])
    ensures LastToken(init + tok + trail) == Some(tok)
    decreases |init|
  {
    var s := init + tok + trail;
    if init == [] {
      assert s == tok + trail;
      RunLengthOfToken(tok, trail);
      assert s[..|tok|] == tok;
      assert s[|tok|..] == trail;
      TokensEmpty(trail);
    } else if IsWhitespace(s[0]) {
      assert s[1..] == init[1..] + tok + trail;
      LastTokenOf(init[1..], tok, trail);
    } else {
      var n := RunLength(s);
      assert s[|init| - 1] == init[|init| - 1];
      assert s[..|init|] == init;
      assert s[n..] == init[n..] + tok + trail;
      LastTokenOf(init[n..], tok, trail);
    }
  }

  // ---------------------------------------------------------------------
  // `contains`

  /** `s.contains(t)`: `t` occurs in `s` as a contiguous piece. */
  predicate Contains(s: string, t: string): (r: bool)
    ensures r ==> |t| <= |s|
    ensures |t| == |s| ==> (r <==> t == s)
    decreases |s|
  {
    t <= s || (s != [] && Contains(s[1..], t))
  }

  /** An occurrence anywhere makes `contains` true. */
  lemma {:induction false} ContainsAt(s: string, t: string, i: nat)
    requires i + |t| <= |s| && s[i..i + |t|] == t
    ensures Contains(s, t)
  {
    if i > 0 {
      assert s[1..][i - 1..i - 1 + |t|] == s[i..i + |t|];
      ContainsAt(s[1..], t, i - 1);
    }
  }

  /** Where `contains` found `t`: it is true only of real occurrences. */
  ghost function ContainsIndex(s: string, t: string): (i: nat)
    requires Contains(s, t)
    ensures i + |t| <= |s| && s[i..i + |t|] == t
    decreases |s|
  {
    if t <= s then 0
    else
      var i := 1 + ContainsIndex(s[1..], t);
      assert s[1..][i - 1..i - 1 + |t|] == s[i..i + |t|];
      i
  }

  // ---------------------------------------------------------------------
  // `to_lowercase`, on ASCII letters

  predicate IsUpper(c: char)
  {
    'A' <= c <= 'Z'
  }

  function LowerChar(c: char): (r: char)
    ensures !IsUpper(r)
    ensures IsUpper(c) ==> r as int == c as int + 32
    ensures !IsUpper(c) ==> r == c
  {
    if IsUpper(c) then (c as int + 32) as char else c
  }

  /** `s.to_lowercase()`: every upper-case letter replaced by its lower-case one. */
  function Lower(s: string): (r: string)
    ensures |r| == |s|
    ensures forall k :: 0 <= k < |s| ==> r[k] == LowerChar(s[k])
  {
    if s == [] then [] else [LowerChar(s[0])] + Lower(s[1..])
  }

  /** A lower-cased text has no upper-case letter, and lower-casing it again
      changes nothing. */
  lemma LowerIsLower(s: string)
    ensures forall k :: 0 <= k < |s| ==> !IsUpper(Lower(s)[k])
    ensures Lower(Lower(s)) == Lower(s)
  {
  }

  // ---------------------------------------------------------------------
  // The regular expression `"([^"]*)"`

  /** The first match of `"([^"]*)"` in `s`: its capture (the text between
      the first quote and the next one) and the text after the match. */
  function NextQuoted(s: string): (r: Option<(string, string)>)
    ensures r.Some? ==> |r.value.1| < |s|
    ensures r.Some? ==> '"' !in r.value.0 && |r.value.0| + |r.value.1| + 2 <= |s|
  {
    match IndexOf(s, '"')
    case None => None
    case Some(i) =>
      var after := s[i + 1..];
      match IndexOf(after, '"')
      case None => None
      case Some(j) => Some((after[..j], after[j + 1..]))
  }

  /** The captures of successive non-overlapping matches of `"([^"]*)"`,
      scanning left to right. A final quote without a partner starts no
      match. */
  function QuotedStrings(s: string): (r: seq<string>)
    ensures forall k :: 0 <= k < |r| ==> '"' !in r[k]
    ensures 2 * |r| <= |s|
    decreases |s|
  {
    match NextQuoted(s)
    case None => []
    case Some((capture, rest)) => [capture] + QuotedStrings(rest)
  }

  /** How the first match relates to `split('"')`: no match leaves at most
      two pieces; a match is the second piece, and the pieces after it are
      those of the rest. */
  lemma NextQuotedPieces(s: string)
    ensures NextQuoted(s).None? ==> |SplitOn(s, '"')| <= 2
    ensures NextQuoted(s).Some? ==>
              SplitOn(s, '"') == [SplitOn(s, '"')[0], NextQuoted(s).value.0]
                                 + SplitOn(NextQuoted(s).value.1, '"')
  {
    match IndexOf(s, '"')
    case None =>
    case Some(i) =>
      var after := s[i + 1..];
      SplitOnUnfold(s, '"', i);
      match IndexOf(after, '"')
      case None =>
      case Some(j) =>
        SplitOnUnfold(after, '"', j);
  }

  /** The quoted strings are the odd-numbered pieces of `split('"')` that are
      closed by a quote: capture `n` is piece `2n + 1`. */
  lemma {:induction false} QuotedStringsAreOddPieces(s: string)
    ensures |QuotedStrings(s)| == (|SplitOn(s, '"')| - 1) / 2
    ensures forall n :: 0 <= n < |QuotedStrings(s)| ==>
              QuotedStrings(s)[n] == SplitOn(s, '"')[2 * n + 1]
    decreases |s|
  {
    NextQuotedPieces(s);
    match NextQuoted(s)
    case None =>
    case Some((capture, rest)) =>
      QuotedStringsAreOddPieces(rest);
      CaptureThenOddPieces(QuotedStrings(s), QuotedStrings(rest), SplitOn(s, '"'), SplitOn(rest, '"'),
                           SplitOn(s, '"')[0], capture);
  }

  /** The step of QuotedStringsAreOddPieces: the first capture `x` is the
      second piece, after the text `p0` before the first quote; if the later
      captures `q` are the odd pieces of the rest, all captures `qs` are the
      odd pieces `ps` of the whole. */
  lemma CaptureThenOddPieces<T>(qs: seq<T>, q: seq<T>, ps: seq<T>, pieces: seq<T>, p0: T, x: T)
    requires qs == [x] + q && ps == [p0, x] + pieces
    requires |q| == (|pieces| - 1) / 2
    requires forall n :: 0 <= n < |q| ==> q[n] == pieces[2 * n + 1]
    ensures |qs| == (|ps| - 1) / 2
    ensures forall n :: 0 <= n < |qs| ==> qs[n] == ps[2 * n + 1]
  {
    forall n | 0 <= n < |qs| ensures qs[n] == ps[2 * n + 1] {
      if n > 0 {
        assert qs[n] == q[n - 1];
        assert ps[2 * n + 1] == pieces[2 * (n - 1) + 1];
      }
    }
  }

  /** A quote-free prefix, a quoted text and the rest: the quoted text is the
      next capture. */
  lemma QuotedStringsOfQuoted(pre: string, a: string, rest: string)
    requires '"' !in pre && '"' !in a
    ensures QuotedStrings(pre + "\"" + a + "\"" + rest) == [a] + QuotedStrings(rest)
  {
    var s := pre + "\"" + a + "\"" + rest;
    IndexOfAfterPrefix(pre, '"', a + "\"" + rest);
    assert s == pre + ['"'] + (a + "\"" + rest);
    var after := s[|pre| + 1..];
    assert after == a + ['"'] + rest;
    IndexOfAfterPrefix(a, '"', rest);
    assert after[..|a|] == a;
    assert after[|a| + 1..] == rest;
  }
}
