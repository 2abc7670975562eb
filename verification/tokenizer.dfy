/**
 The argument splitter of the shell (`parse_args`): reading tokens with
 `stringstream >> token` cuts a line into its maximal runs of non-whitespace
 characters, in order, and never yields an empty token.
 */
module Tokenizer {
  import opened Text

  /** The tokens of `line`, first to last. */
  function Tokens(line: string): (ts: seq<string>)
    ensures forall i :: 0 <= i < |ts| ==> IsWord(ts[i])
    decreases |line|
  {
    var t := SkipSpace(line);
    if t == [] then []
    else
      var k := WordSpan(t);
      [t[..k]] + Tokens(t[k..])
  }

  /** The tokens joined by single spaces: the canonical spelling of a line. */
  function Join(ts: seq<string>): string
    decreases |ts|
  {
    if ts == [] then ""
    else if |ts| == 1 then ts[0]
    else ts[0] + " " + Join(ts[1..])
  }

  /** The concatenation of a sequence of strings. */
  function Flatten(ts: seq<string>): string
    decreases |ts|
  {
    if ts == [] then "" else ts[0] + Flatten(ts[1..])
  }

  /** The characters of `s` that are not whitespace, in order. */
  function NonSpace(s: string): string
    decreases |s|
  {
    if s == [] then ""
    else if IsSpace(s[0]) then NonSpace(s[1..])
    else [s[0]] + NonSpace(s[1..])
  }

  /** No tokens at all exactly when the line is empty or all whitespace, the
      same test the main loop uses to skip a line. */
  lemma TokensEmptyIffBlank(line: string)
    ensures Tokens(line) == [] <==> IsBlank(line)
  {
  }

  lemma TokensOfBlankPrefix(p: string, s: string)
    requires IsBlank(p)
    ensures Tokens(p + s) == Tokens(s)
  {
    SkipSpaceOfBlankPrefix(p, s);
  }

  lemma SkipSpaceAppend(a: string, y: string)
    requires SkipSpace(a) != []
    ensures SkipSpace(a + y) == SkipSpace(a) + y
  {
    SpaceSpanAppend(a, y);
    DropConcat(a, y, SpaceSpan(a));
  }

  /** A word followed by whitespace (or nothing) ends where it did. */
  lemma WordSpanBeforeSpace(t: string, y: string)
    requires y == [] || IsSpace(y[0])
    ensures var k := WordSpan(t);
            && WordSpan(t + y) == k
            && (t + y)[..k] == t[..k]
            && (t + y)[k..] == t[k..] + y
  {
    WordSpanAppend(t, y);
    TakeConcat(t, y, WordSpan(t));
    DropConcat(t, y, WordSpan(t));
  }

  /** The first token of `a` stays the first token when whitespace and more
      text follow `a`. */
  lemma SplitStep(a: string, ws: string, b: string)
    requires IsBlank(ws) && ws != []
    requires SkipSpace(a) != []
    ensures var t := SkipSpace(a);
            var k := WordSpan(t);
            && |t[k..]| < |a|
            && Tokens(a) == [t[..k]] + Tokens(t[k..])
            && Tokens(a + ws + b) == [t[..k]] + Tokens(t[k..] + ws + b)
  {
    var y := ws + b;
    assert y[0] == ws[0];
    Assoc(a, ws, b);
    var t := SkipSpace(a);
    SkipSpaceAppend(a, y);
    var k := WordSpan(t);
    WordSpanBeforeSpace(t, y);
    Assoc(t[k..], ws, b);
    assert k > 0 by {
      assert !IsSpace(a[SpaceSpan(a)]);
    }
  }

  /** Tokens of a line that starts with a blank stretch of text. */
  lemma SplitBlank(a: string, ws: string, b: string)
    requires IsBlank(ws)
    requires SkipSpace(a) == []
    ensures Tokens(a + ws + b) == Tokens(a) + Tokens(b)
  {
    TokensEmptyIffBlank(a);
    assert IsBlank(a + ws);
    TokensOfBlankPrefix(a + ws, b);
  }

  /** A line that does not start with whitespace starts with its first
      token. */
  lemma FirstTokenStart(line: string)
    requires Tokens(line) != []
    ensures line != [] && (IsSpace(line[0]) || Tokens(line)[0][0] == line[0])
    ensures !IsSpace(line[0]) ==> |Tokens(line)[0]| <= |line| && line[..|Tokens(line)[0]|] == Tokens(line)[0]
  {
    var t := SkipSpace(line);
    var n := SpaceSpan(line);
    assert t != [] && t[0] == line[n];
    var k := WordSpan(t);
    assert k > 0;
    assert Tokens(line)[0] == t[..k];
    if !IsSpace(line[0]) {
      assert n == 0;
      assert SkipSpace(line) == line;
    }
  }

  /** A whitespace run separates: the tokens on its two sides never merge. */
  lemma {:induction false} TokensSplit(a: string, ws: string, b: string)
    requires IsBlank(ws) && ws != []
    ensures Tokens(a + ws + b) == Tokens(a) + Tokens(b)
    decreases |a|
  {
    var t := SkipSpace(a);
    if t == [] {
      SplitBlank(a, ws, b);
    } else {
      SplitStep(a, ws, b);
      var k := WordSpan(t);
      TokensSplit(t[k..], ws, b);
      ConsAssoc(t[..k], Tokens(t[k..]), Tokens(b));
    }
  }

  /** A single token on its own line comes back as itself. */
  lemma TokensOfWord(w: string)
    requires IsWord(w)
    ensures Tokens(w) == [w]
  {
    assert SpaceSpan(w) == 0;
    assert SkipSpace(w) == w;
    WordSpanOfWord(w);
    assert w[..|w|] == w;
    assert w[|w|..] == [];
    assert Tokens(w) == [w] + Tokens([]);
  }

  lemma JoinTokens(ts: seq<string>)
    requires |ts| > 1 && IsWord(ts[0])
    requires Tokens(Join(ts[1..])) == ts[1..]
    ensures Tokens(Join(ts)) == ts
  {
    var j := Join(ts[1..]);
    assert Join(ts) == ts[0] + " " + j;
    TokensOfWord(ts[0]);
    TokensSplit(ts[0], " ", j);
    assert Tokens(Join(ts)) == [ts[0]] + ts[1..];
    ConsTail(ts);
  }

  /** Round trip: splitting the single-space join of well-formed tokens gives
      the same tokens back. */
  lemma {:induction false} TokensOfJoin(ts: seq<string>)
    requires forall i :: 0 <= i < |ts| ==> IsWord(ts[i])
    ensures Tokens(Join(ts)) == ts
    decreases |ts|
  {
    if ts == [] {
      assert Tokens("") == [];
    } else if |ts| == 1 {
      TokensOfWord(ts[0]);
    } else {
      var tail := ts[1..];
      assert forall i :: 0 <= i < |tail| ==> IsWord(tail[i]) by {
        forall i | 0 <= i < |tail| ensures IsWord(tail[i]) {
          assert tail[i] == ts[i + 1];
        }
      }
      TokensOfJoin(tail);
      JoinTokens(ts);
    }
  }

  /** Collapsing a whitespace run to a single space does not change the
      tokens. */
  lemma TokensOfCollapsed(a: string, ws: string, b: string)
    requires IsBlank(ws) && ws != []
    ensures Tokens(a + ws + b) == Tokens(a + " " + b)
  {
    TokensSplit(a, ws, b);
    TokensSplit(a, " ", b);
  }

  /** Whitespace around a line does not change its tokens. */
  lemma TokensOfTrimmed(lead: string, line: string, trail: string)
    requires IsBlank(lead) && IsBlank(trail)
    ensures Tokens(lead + line + trail) == Tokens(line)
  {
    assert lead + line + trail == lead + (line + trail);
    TokensOfBlankPrefix(lead, line + trail);
    if trail != [] {
      TokensSplit(line, trail, "");
      assert line + trail + "" == line + trail;
      assert Tokens("") == [];
    } else {
      assert line + trail == line;
    }
  }

  lemma {:induction false} NonSpaceAppend(x: string, y: string)
    ensures NonSpace(x + y) == NonSpace(x) + NonSpace(y)
    decreases |x|
  {
    if x == [] {
      assert x + y == y;
    } else {
      assert (x + y)[0] == x[0];
      assert (x + y)[1..] == x[1..] + y;
      NonSpaceAppend(x[1..], y);
    }
  }

  lemma {:induction false} NonSpaceOfBlank(s: string)
    requires IsBlank(s)
    ensures NonSpace(s) == ""
    decreases |s|
  {
    if s != [] {
      NonSpaceOfBlank(s[1..]);
    }
  }

  lemma {:induction false} NonSpaceOfWordChars(w: string)
    requires forall i :: 0 <= i < |w| ==> !IsSpace(w[i])
    ensures NonSpace(w) == w
    decreases |w|
  {
    if w != [] {
      NonSpaceOfWordChars(w[1..]);
      ConsTail(w);
    }
  }

  lemma SkipContent(line: string)
    ensures NonSpace(line) == NonSpace(SkipSpace(line))
  {
    var n := SpaceSpan(line);
    assert line == line[..n] + line[n..];
    NonSpaceAppend(line[..n], line[n..]);
    NonSpaceOfBlank(line[..n]);
  }

  lemma WordContent(t: string)
    ensures var k := WordSpan(t);
            NonSpace(t) == t[..k] + NonSpace(t[k..])
  {
    var k := WordSpan(t);
    assert t == t[..k] + t[k..];
    NonSpaceAppend(t[..k], t[k..]);
    NonSpaceOfWordChars(t[..k]);
  }

  /** Tokens lose nothing but whitespace: laid end to end they are exactly
      the non-whitespace characters of the line, in input order. */
  lemma {:induction false} TokensKeepContent(line: string)
    ensures Flatten(Tokens(line)) == NonSpace(line)
    decreases |line|
  {
    var t := SkipSpace(line);
    SkipContent(line);
    if t != [] {
      var k := WordSpan(t);
      WordContent(t);
      TokensKeepContent(t[k..]);
      var ts := Tokens(line);
      assert ts == [t[..k]] + Tokens(t[k..]);
      assert ts[0] == t[..k] && ts[1..] == Tokens(t[k..]);
    }
  }
}
