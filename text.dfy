/** Character classes, ASCII case folding, decimal numerals and space-separated
    tokens: the small amount of text processing that the bot's regular
    expressions, strptime calls and "%s" formatting perform. */
module Text {

  /** `\d` of a Python 2 byte-string regular expression. */
  predicate IsDigit(c: char) { '0' <= c <= '9' }

  /** `\w` of a Python 2 byte-string regular expression (no UNICODE flag). */
  predicate IsWordChar(c: char) {
    IsDigit(c) || 'a' <= c <= 'z' || 'A' <= c <= 'Z' || c == '_'
  }

  predicate AllDigits(s: string) { forall i :: 0 <= i < |s| ==> IsDigit(s[i]) }

  predicate AllWordChars(s: string) { forall i :: 0 <= i < |s| ==> IsWordChar(s[i]) }

  predicate NoSpace(s: string) { forall i :: 0 <= i < |s| ==> s[i] != ' ' }

  predicate NoColon(s: string) { forall i :: 0 <= i < |s| ==> s[i] != ':' }

  /** Index of the first colon at or after `i`, or `|s|` when there is none. */
  function ColonFrom(s: string, i: nat): (n: nat)
    requires i <= |s|
    ensures i <= n <= |s| && (forall k :: i <= k < n ==> s[k] != ':')
    ensures n < |s| ==> s[n] == ':'
    decreases |s| - i
  {
    if i == |s| || s[i] == ':' then i else ColonFrom(s, i + 1)
  }

  /** Index of the first colon, or `|s|` when there is none. */
  function FirstColon(s: string): (i: nat)
    ensures i <= |s| && NoColon(s[..i])
    ensures i < |s| ==> s[i] == ':'
  {
    ColonFrom(s, 0)
  }

  /** ASCII case folding, which is what `re.I` does on byte strings. */
  function Lower(c: char): (r: char)
    ensures 'A' <= c <= 'Z' ==> 'a' <= r <= 'z' && r as int == c as int + 32
    ensures !('A' <= c <= 'Z') ==> r == c
  {
    if 'A' <= c <= 'Z' then (c as int + 32) as char else c
  }

  function LowerStr(s: string): (r: string)
    ensures |r| == |s|
    ensures forall i :: 0 <= i < |s| ==> r[i] == Lower(s[i])
  {
    seq(|s|, i requires 0 <= i < |s| => Lower(s[i]))
  }

  /** A word that folds to a lower-case literal is made of letters. */
  lemma FoldsToLetters(w: string, lit: string)
    requires LowerStr(w) == lit && forall k :: 0 <= k < |lit| ==> 'a' <= lit[k] <= 'z'
    ensures |w| == |lit| && NoSpace(w) && forall k :: 0 <= k < |w| ==> !IsDigit(w[k])
  {
    forall k | 0 <= k < |w|
      ensures w[k] != ' ' && !IsDigit(w[k])
    {
      assert Lower(w[k]) == lit[k];
    }
  }

  /** `s` equals the lower-case literal `lit` up to ASCII case. */
  predicate MatchesIgnoreCase(s: string, lit: string) { LowerStr(s) == lit }

  function DigitValue(c: char): nat requires IsDigit(c) { c as int - '0' as int }

  function DigitChar(d: nat): (c: char)
    requires d < 10
    ensures IsDigit(c) && DigitValue(c) == d
  {
    ('0' as int + d) as char
  }

  /** The number that a string of decimal digits denotes (Python's `int(s)`). */
  function DigitsValue(s: string): nat
    requires AllDigits(s)
  {
    if s == [] then 0 else DigitsValue(s[..|s| - 1]) * 10 + DigitValue(s[|s| - 1])
  }

  /** The value of a one- or two-digit prefix. */
  lemma PrefixValue(s: string, n: nat)
    requires 1 <= n <= 2 && n <= |s| && AllDigits(s[..n])
    ensures IsDigit(s[0]) && (n == 2 ==> IsDigit(s[1]))
    ensures DigitsValue(s[..n]) == if n == 1 then DigitValue(s[0]) else DigitValue(s[0]) * 10 + DigitValue(s[1])
  {
    var p := s[..n];
    assert p[0] == s[0];
    if n == 1 {
      assert p[..0] == [];
    } else {
      var q := p[..1];
      assert q[0] == s[0] && q[..0] == [];
      assert DigitsValue(q) == DigitValue(s[0]);
      assert p[1] == s[1];
      assert DigitsValue(p) == DigitsValue(q) * 10 + DigitValue(p[1]);
    }
  }

  /** Shortest decimal numeral of `n`, as Python's `str(n)` prints it. */
  function NatText(n: nat): (s: string)
    ensures |s| > 0 && AllDigits(s) && DigitsValue(s) == n
    ensures s[0] == '0' ==> n == 0
  {
    if n < 10 then [DigitChar(n)]
    else
      var s := NatText(n / 10) + [DigitChar(n % 10)];
      assert s[..|s| - 1] == NatText(n / 10);
      s
  }

  /** `str(i)` for a possibly negative integer. */
  function IntText(i: int): string {
    if i < 0 then "-" + NatText(-i) else NatText(i)
  }

  /** `%02d`: two digits with a leading zero. */
  function Pad2(n: nat): (s: string)
    requires n < 100
    ensures |s| == 2 && AllDigits(s) && DigitsValue(s) == n
  {
    var s := [DigitChar(n / 10), DigitChar(n % 10)];
    assert s[..1] == [DigitChar(n / 10)] && s[..1][..0] == [];
    assert DigitsValue(s[..1]) == n / 10;
    assert DigitsValue(s) == (n / 10) * 10 + n % 10;
    s
  }

  /** End of the run of digits that starts at `i`. */
  function DigitsEnd(s: string, i: nat): (n: nat)
    requires i <= |s|
    ensures i <= n <= |s| && (forall k :: i <= k < n ==> IsDigit(s[k]))
    ensures n < |s| ==> !IsDigit(s[n])
    decreases |s| - i
  {
    if i == |s| || !IsDigit(s[i]) then i else DigitsEnd(s, i + 1)
  }

  /** Number of leading characters of `s` that are digits. */
  function LeadingDigits(s: string): (n: nat)
    ensures n <= |s| && AllDigits(s[..n])
    ensures n < |s| ==> !IsDigit(s[n])
  {
    DigitsEnd(s, 0)
  }

  /** Reads a numeral written by IntText: an optional minus sign and digits.
      Returns the value and the number of characters consumed. */
  function ReadInt(s: string): Option<(int, nat)> {
    if |s| > 0 && s[0] == '-' then
      var n := LeadingDigits(s[1..]);
      if n == 0 then None else Some((-(DigitsValue(s[1..][..n]) as int), n + 1))
    else
      var n := LeadingDigits(s);
      if n == 0 then None else Some((DigitsValue(s[..n]) as int, n))
  }

  lemma LeadingDigitsOfNumeral(d: string, rest: string)
    requires AllDigits(d)
    requires rest == [] || !IsDigit(rest[0])
    ensures LeadingDigits(d + rest) == |d|
  {
    var s := d + rest;
    assert forall k :: 0 <= k < |d| ==> IsDigit(s[k]);
    assert |d| < |s| ==> s[|d|] == rest[0];
    DigitsEndAt(s, 0, |d|);
  }

  /** The run of digits from `i` ends at `n` when `s[i..n]` are digits and
      `s[n]` is not. */
  lemma {:induction false} DigitsEndAt(s: string, i: nat, n: nat)
    requires i <= n <= |s| && (forall k :: i <= k < n ==> IsDigit(s[k]))
    requires n < |s| ==> !IsDigit(s[n])
    ensures DigitsEnd(s, i) == n
    decreases n - i
  {
    if i < n {
      DigitsEndAt(s, i + 1, n);
    }
  }

  /** IntText is read back by ReadInt, whatever non-digit text follows it. */
  lemma ReadIntText(i: int, rest: string)
    requires rest == [] || !IsDigit(rest[0])
    ensures ReadInt(IntText(i) + rest) == Some((i, |IntText(i)|))
  {
    if i < 0 {
      ReadNegative(NatText(-i), rest);
    } else {
      ReadNumeral(NatText(i), rest);
    }
  }

  /** The digits `d` are read whole when a non-digit follows them. */
  lemma ReadNumeral(d: string, rest: string)
    requires d != [] && AllDigits(d)
    requires rest == [] || !IsDigit(rest[0])
    ensures ReadInt(d + rest) == Some((DigitsValue(d) as int, |d|))
  {
    var s := d + rest;
    LeadingDigitsOfNumeral(d, rest);
    assert s[..|d|] == d;
    assert s[0] == d[0];
  }

  lemma ReadNegative(d: string, rest: string)
    requires d != [] && AllDigits(d)
    requires rest == [] || !IsDigit(rest[0])
    ensures ReadInt("-" + d + rest) == Some((-(DigitsValue(d) as int), |d| + 1))
  {
    var t := d + rest;
    var s := "-" + d + rest;
    assert s == ['-'] + t;
    assert s[0] == '-' && s[1..] == t;
    LeadingDigitsOfNumeral(d, rest);
    assert t[..|d|] == d;
    ReadMinus(s, d);
  }

  lemma ReadMinus(s: string, d: string)
    requires |s| > 1 && s[0] == '-' && d != [] && AllDigits(d)
    requires LeadingDigits(s[1..]) == |d| && s[1..][..|d|] == d
    ensures ReadInt(s) == Some((-(DigitsValue(d) as int), |d| + 1))
  {
  }

  datatype Option<T> = None | Some(value: T)

  /** A value, or the message of the exception raised instead. */
  datatype Result<T> = Ok(value: T) | Err(message: string)

  /** End of the run of spaces that starts at `i`. */
  function SpacesEnd(s: string, i: nat): (n: nat)
    requires i <= |s|
    ensures i <= n <= |s| && (forall k :: i <= k < n ==> s[k] == ' ')
    ensures n < |s| ==> s[n] != ' '
    decreases |s| - i
  {
    if i == |s| || s[i] != ' ' then i else SpacesEnd(s, i + 1)
  }

  /** End of the run of non-space characters that starts at `i`. */
  function WordEnd(s: string, i: nat): (n: nat)
    requires i <= |s|
    ensures i <= n <= |s| && (forall k :: i <= k < n ==> s[k] != ' ')
    ensures n < |s| ==> s[n] == ' '
    decreases |s| - i
  {
    if i == |s| || s[i] == ' ' then i else WordEnd(s, i + 1)
  }

  /** Number of leading spaces. */
  function LeadingSpaces(s: string): (n: nat)
    ensures n <= |s|
    ensures forall i :: 0 <= i < n ==> s[i] == ' '
    ensures n < |s| ==> s[n] != ' '
  {
    SpacesEnd(s, 0)
  }

  /** Number of leading non-space characters. */
  function LeadingWord(s: string): (n: nat)
    ensures n <= |s| && NoSpace(s[..n])
    ensures n < |s| ==> s[n] == ' '
  {
    WordEnd(s, 0)
  }

  /** The run of spaces from `i` ends at `n` when `s[i..n]` are spaces and
      `s[n]` is not. */
  lemma {:induction false} SpacesEndAt(s: string, i: nat, n: nat)
    requires i <= n <= |s| && (forall k :: i <= k < n ==> s[k] == ' ')
    requires n < |s| ==> s[n] != ' '
    ensures SpacesEnd(s, i) == n
    decreases n - i
  {
    if i < n {
      SpacesEndAt(s, i + 1, n);
    }
  }

  /** A run of `n` spaces. */
  function Spaces(n: nat): (s: string)
    ensures |s| == n && forall i :: 0 <= i < n ==> s[i] == ' '
  {
    seq(n, _ => ' ')
  }

  /** A maximal run of non-space characters and the number of spaces before it. */
  datatype Token = Token(gap: nat, word: string)

  predicate WellFormedToken(t: Token) { |t.word| > 0 && NoSpace(t.word) }

  /** The tokens of `s[i..]`: splits it at runs of spaces, which is how the
      patterns' ` +` and ` *` separators divide a timer expression. Trailing
      spaces produce no token. */
  function TokensFrom(s: string, i: nat): (ts: seq<Token>)
    requires i <= |s|
    ensures forall j :: 0 <= j < |ts| ==> WellFormedToken(ts[j])
    decreases |s| - i
  {
    var g := SpacesEnd(s, i);
    if g == |s| then []
    else
      var w := WordEnd(s, g);
      assert NoSpace(s[g..w]) by {
        assert forall k :: 0 <= k < w - g ==> s[g..w][k] == s[g + k];
      }
      [Token(g - i, s[g..w])] + TokensFrom(s, w)
  }

  function Tokens(s: string): seq<Token> { TokensFrom(s, 0) }

  /** The text a token sequence came from. */
  function Untokenize(ts: seq<Token>): string {
    if ts == [] then [] else Spaces(ts[0].gap) + ts[0].word + Untokenize(ts[1..])
  }

  function Words(ts: seq<Token>): (ws: seq<string>)
    ensures |ws| == |ts| && forall i :: 0 <= i < |ts| ==> ws[i] == ts[i].word
  {
    seq(|ts|, i requires 0 <= i < |ts| => ts[i].word)
  }

  predicate NoTrailingSpace(s: string) { s == [] || s[|s| - 1] != ' ' }

  /** Tokenizing loses nothing but trailing spaces. */
  lemma TokensRoundTrip(s: string)
    requires NoTrailingSpace(s)
    ensures Untokenize(Tokens(s)) == s
  {
    TokensFromRoundTrip(s, 0);
  }

  lemma {:induction false} TokensFromRoundTrip(s: string, i: nat)
    requires i <= |s| && NoTrailingSpace(s)
    ensures Untokenize(TokensFrom(s, i)) == s[i..]
    decreases |s| - i
  {
    var g := SpacesEnd(s, i);
    if g < |s| {
      var w := WordEnd(s, g);
      UntokenizeCons(Token(g - i, s[g..w]), TokensFrom(s, w));
      TokensFromRoundTrip(s, w);
      GapAndWord(s, i, g, w);
    }
  }

  lemma GapAndWord(s: string, i: nat, g: nat, w: nat)
    requires i <= g <= w <= |s| && g == SpacesEnd(s, i)
    ensures s[i..] == Spaces(g - i) + s[g..w] + s[w..]
  {
    assert forall k :: 0 <= k < g - i ==> s[i..g][k] == s[i + k] == ' ';
    assert s[i..g] == Spaces(g - i);
    assert s[i..g] + s[g..w] == s[i..w];
    assert s[i..] == s[i..w] + s[w..];
  }

  /** The run of non-spaces from `i` ends at `n` when `s[i..n]` has no space
      and `s[n]` is one. */
  lemma {:induction false} WordEndAt(s: string, i: nat, n: nat)
    requires i <= n <= |s| && (forall k :: i <= k < n ==> s[k] != ' ')
    requires n < |s| ==> s[n] == ' '
    ensures WordEnd(s, i) == n
    decreases n - i
  {
    if i < n {
      WordEndAt(s, i + 1, n);
    }
  }

  /** Tokens that are separated by at least one space, as one token of text
      cuts them, are what splitting their text gives back. */
  predicate Separated(ts: seq<Token>) {
    (forall j :: 0 <= j < |ts| ==> WellFormedToken(ts[j])) && forall j :: 1 <= j < |ts| ==> ts[j].gap >= 1
  }

  /** Splitting rebuilt text gives back the tokens: the converse of TokensRoundTrip. */
  lemma UntokenizeRoundTrip(ts: seq<Token>)
    requires Separated(ts)
    ensures Tokens(Untokenize(ts)) == ts
  {
    var s := Untokenize(ts);
    assert s[0..] == s;
    TokensFromText(s, 0, ts);
  }

  lemma {:induction false} TokensFromText(s: string, i: nat, ts: seq<Token>)
    requires i <= |s| && s[i..] == Untokenize(ts) && Separated(ts)
    ensures TokensFrom(s, i) == ts
    decreases |ts|
  {
    if ts == [] {
      SpacesEndAt(s, i, i);
    } else {
      SeparatedTail(ts);
      var w := TokenStep(s, i, ts[0], Untokenize(ts[1..]));
      TokensFromText(s, w, ts[1..]);
      HeadTail(ts);
    }
  }

  lemma HeadTail<T>(xs: seq<T>)
    requires xs != []
    ensures xs == [xs[0]] + xs[1..]
  {
  }

  /** The tail of separated tokens is separated, and its text is empty or
      starts with a space. */
  lemma SeparatedTail(ts: seq<Token>)
    requires ts != [] && Separated(ts)
    ensures Separated(ts[1..])
    ensures var rest := Untokenize(ts[1..]); rest == [] || rest[0] == ' '
  {
    assert forall j :: 0 <= j < |ts| - 1 ==> ts[1..][j] == ts[j + 1];
    if |ts| > 1 {
      var t := ts[1];
      assert ts[1..][0] == t && t.gap >= 1;
      assert Untokenize(ts[1..]) == Spaces(t.gap) + (t.word + Untokenize(ts[1..][1..]));
    }
  }

  /** One token read at `i`, then the tokens from where it ends. */
  lemma TokenStep(s: string, i: nat, t: Token, rest: string) returns (w: nat)
    requires i <= |s| && s[i..] == Spaces(t.gap) + t.word + rest
    requires WellFormedToken(t) && (rest == [] || rest[0] == ' ')
    ensures w <= |s| && s[w..] == rest && TokensFrom(s, i) == [t] + TokensFrom(s, w)
  {
    TokenAt(s, i, t, rest);
    w := i + t.gap + |t.word|;
    TokensFromStep(s, i, t, w);
  }

  lemma TokensFromStep(s: string, i: nat, t: Token, w: nat)
    requires i + t.gap < |s| && SpacesEnd(s, i) == i + t.gap
    requires i + t.gap <= w <= |s| && WordEnd(s, i + t.gap) == w && s[i + t.gap..w] == t.word
    ensures TokensFrom(s, i) == [t] + TokensFrom(s, w)
  {
    TokensFromUnfold(s, i);
  }

  lemma TokensFromUnfold(s: string, i: nat)
    requires i <= |s| && SpacesEnd(s, i) < |s|
    ensures var g := SpacesEnd(s, i); var w := WordEnd(s, g);
      TokensFrom(s, i) == [Token(g - i, s[g..w])] + TokensFrom(s, w)
  {
  }

  /** Where a token written at `i`, followed by a space or nothing, is cut. */
  lemma TokenAt(s: string, i: nat, t: Token, rest: string)
    requires i <= |s| && s[i..] == Spaces(t.gap) + t.word + rest
    requires WellFormedToken(t) && (rest == [] || rest[0] == ' ')
    ensures i + t.gap < i + t.gap + |t.word| <= |s|
    ensures var g, w := i + t.gap, i + t.gap + |t.word|;
      SpacesEnd(s, i) == g && WordEnd(s, g) == w && s[g..w] == t.word && s[w..] == rest
  {
    SliceOfConcat(s, i, Spaces(t.gap), t.word, rest);
    GapEnd(s, i, t.gap, t.word[0]);
    WordThenRest(s, i + t.gap, t.word, rest);
  }

  /** Where the three parts of `s[i..]` lie in `s`. */
  lemma SliceOfConcat<T>(s: seq<T>, i: nat, a: seq<T>, b: seq<T>, c: seq<T>)
    requires i <= |s| && s[i..] == a + b + c
    ensures i + |a| + |b| <= |s| && s[i..i + |a|] == a && s[i + |a|..] == b + c
    ensures b != [] ==> s[i + |a|] == b[0]
  {
    assert s[i..][..|a|] == a && s[i..][|a|..] == b + c;
  }

  lemma GapEnd(s: string, i: nat, gap: nat, c: char)
    requires i + gap < |s| && c != ' ' && s[i + gap] == c
    requires s[i..i + gap] == Spaces(gap)
    ensures SpacesEnd(s, i) == i + gap
  {
    assert forall k :: i <= k < i + gap ==> s[k] == s[i..i + gap][k - i];
    SpacesEndAt(s, i, i + gap);
  }

  lemma WordThenRest(s: string, g: nat, word: string, rest: string)
    requires g <= |s| && s[g..] == word + rest && NoSpace(word)
    requires rest == [] || rest[0] == ' '
    ensures WordEnd(s, g) == g + |word| && s[g..g + |word|] == word && s[g + |word|..] == rest
  {
    var w := g + |word|;
    assert forall k :: g <= k < w ==> s[k] == word[k - g];
    if w < |s| {
      assert s[w] == s[g..][|word|] == rest[0];
    }
    WordEndAt(s, g, w);
  }

  /** The words, each after one space: how a timer expression is usually typed. */
  function Spaced(ws: seq<string>): string {
    if ws == [] then [] else " " + ws[0] + Spaced(ws[1..])
  }

  /** The tokens of Spaced(ws). */
  function SpacedTokens(ws: seq<string>): (ts: seq<Token>)
    ensures Words(ts) == ws
  {
    var ts := seq(|ws|, i requires 0 <= i < |ws| => Token(1, ws[i]));
    assert Words(ts) == ws;
    ts
  }

  predicate Word(w: string) { |w| > 0 && NoSpace(w) }

  /** Spaced words split back into the same words, each after a gap of one. */
  lemma TokensOfSpaced(ws: seq<string>)
    requires forall i :: 0 <= i < |ws| ==> Word(ws[i])
    ensures Tokens(Spaced(ws)) == SpacedTokens(ws)
  {
    SpacedUntokenize(ws);
    UntokenizeRoundTrip(SpacedTokens(ws));
  }

  lemma {:induction false} SpacedUntokenize(ws: seq<string>)
    ensures Untokenize(SpacedTokens(ws)) == Spaced(ws)
    decreases |ws|
  {
    if ws != [] {
      var ts := SpacedTokens(ws);
      assert ts[1..] == SpacedTokens(ws[1..]);
      SpacedUntokenize(ws[1..]);
      assert Spaces(1) == " ";
    }
  }

  /** Spacing a concatenation spaces each side. */
  lemma {:induction false} SpacedAppend(xs: seq<string>, ys: seq<string>)
    ensures Spaced(xs + ys) == Spaced(xs) + Spaced(ys)
    decreases |xs|
  {
    if xs != [] {
      var zs := xs + ys;
      assert zs[0] == xs[0] && zs[1..] == xs[1..] + ys;
      assert Spaced(zs) == " " + xs[0] + Spaced(xs[1..] + ys);
      SpacedAppend(xs[1..], ys);
      ConcatAssoc(" " + xs[0], Spaced(xs[1..]), Spaced(ys));
    } else {
      assert xs + ys == ys;
    }
  }

  /** The first colon of `d + ":" + rest` when `d` has none. */
  lemma FirstColonAfter(d: string, rest: string)
    requires NoColon(d)
    ensures FirstColon(d + ":" + rest) == |d|
  {
    var s := d + ":" + rest;
    assert forall k :: 0 <= k < |d| ==> s[k] == d[k];
    ColonFromAt(s, 0, |d|);
  }

  lemma {:induction false} ColonFromAt(s: string, i: nat, n: nat)
    requires i <= n < |s| && (forall k :: i <= k < n ==> s[k] != ':') && s[n] == ':'
    ensures ColonFrom(s, i) == n
    decreases n - i
  {
    if i < n {
      ColonFromAt(s, i + 1, n);
    }
  }

  lemma ConcatAssoc(x: string, y: string, z: string)
    ensures (x + y) + z == x + (y + z)
  {
  }

  lemma UntokenizeCons(t: Token, ts: seq<Token>)
    ensures Untokenize([t] + ts) == Spaces(t.gap) + t.word + Untokenize(ts)
  {
    assert ([t] + ts)[1..] == ts;
  }
}
