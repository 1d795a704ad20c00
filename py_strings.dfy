/**
 * The Python string built-ins the scraper's naming logic is made of, with
 * the facts about them that the naming lemmas need:
 *   str.split() (no argument), str.split(sep), sep.join(parts),
 *   str.strip(chars), str(n) for n >= 0, and str.zfill(width).
 */
module PyStrings {

  // ---------------------------------------------------------------------
  // Whitespace and str.split()
  // ---------------------------------------------------------------------

  /** str.isspace() on one character: the separators of str.split(). */
  predicate IsSpace(ch: char) {
    ('\t' <= ch <= '\r') || ('\U{1C}' <= ch <= '\U{1F}') || ch == ' '
    || ch == '\U{85}' || ch == '\U{A0}' || ch == '\U{1680}'
    || ('\U{2000}' <= ch <= '\U{200A}') || ch == '\U{2028}' || ch == '\U{2029}'
    || ch == '\U{202F}' || ch == '\U{205F}' || ch == '\U{3000}'
  }

  predicate NoSpace(s: string) {
    forall i :: 0 <= i < |s| ==> !IsSpace(s[i])
  }

  predicate AllSpace(s: string) {
    forall i :: 0 <= i < |s| ==> IsSpace(s[i])
  }

  /** The run of non-whitespace characters at the start of s. */
  function LeadingWord(s: string): (w: string)
    ensures |w| <= |s| && w == s[..|w|]
    ensures NoSpace(w)
    ensures |w| == |s| || IsSpace(s[|w|])
  {
    if s == [] || IsSpace(s[0]) then [] else [s[0]] + LeadingWord(s[1..])
  }

  /** str.split() with no argument: the maximal runs of non-whitespace
      characters, in order; leading, trailing and repeated whitespace
      produce no empty token. */
  function Tokens(s: string): seq<string>
    decreases |s|
  {
    if s == [] then []
    else if IsSpace(s[0]) then Tokens(s[1..])
    else
      var w := LeadingWord(s);
      [w] + Tokens(s[|w|..])
  }

  /** Every token is a non-empty run of non-whitespace characters. */
  lemma {:induction false} TokensAreWords(s: string)
    ensures forall i :: 0 <= i < |Tokens(s)| ==> Tokens(s)[i] != [] && NoSpace(Tokens(s)[i])
    decreases |s|
  {
    if s == [] {
    } else if IsSpace(s[0]) {
      TokensAreWords(s[1..]);
    } else {
      var w := LeadingWord(s);
      TokensAreWords(s[|w|..]);
    }
  }

  /** Whitespace in front of a string contributes no token. */
  lemma {:induction false} TokensSkipSpace(sep: string, b: string)
    requires AllSpace(sep)
    ensures Tokens(sep + b) == Tokens(b)
    decreases |sep|
  {
    if sep == [] {
      assert sep + b == b;
    } else {
      assert (sep + b)[1..] == sep[1..] + b;
      TokensSkipSpace(sep[1..], b);
    }
  }

  /** A word stops at the first whitespace character. */
  lemma {:induction false} LeadingWordStops(a: string, t: string)
    requires t != [] && IsSpace(t[0])
    ensures LeadingWord(a + t) == LeadingWord(a)
    decreases |a|
  {
    if a != [] && !IsSpace(a[0]) {
      assert (a + t)[1..] == a[1..] + t;
      LeadingWordStops(a[1..], t);
    }
  }

  /** A non-empty run of whitespace separates the tokens on its two sides,
      whatever its length and whichever whitespace characters it holds. */
  lemma {:induction false} TokensSplitAt(a: string, sep: string, b: string)
    requires sep != [] && AllSpace(sep)
    ensures Tokens(a + sep + b) == Tokens(a) + Tokens(b)
    decreases |a|
  {
    if a == [] {
      assert a + sep + b == sep + b;
      TokensSkipSpace(sep, b);
    } else if IsSpace(a[0]) {
      TokensSplitAt(a[1..], sep, b);
      TokensSplitAfterSpace(a, sep, b);
    } else {
      var w := LeadingWord(a);
      TokensSplitAt(a[|w|..], sep, b);
      TokensSplitAfterWord(a, sep, b);
    }
  }

  /** The step of TokensSplitAt past a leading whitespace character. */
  lemma TokensSplitAfterSpace(a: string, sep: string, b: string)
    requires a != [] && IsSpace(a[0])
    requires Tokens(a[1..] + sep + b) == Tokens(a[1..]) + Tokens(b)
    ensures Tokens(a + sep + b) == Tokens(a) + Tokens(b)
  {
    assert (a + sep + b)[1..] == a[1..] + sep + b;
  }

  /** The step of TokensSplitAt past a leading word. */
  lemma TokensSplitAfterWord(a: string, sep: string, b: string)
    requires sep != [] && IsSpace(sep[0])
    requires a != [] && !IsSpace(a[0])
    requires Tokens(a[|LeadingWord(a)|..] + sep + b) == Tokens(a[|LeadingWord(a)|..]) + Tokens(b)
    ensures Tokens(a + sep + b) == Tokens(a) + Tokens(b)
  {
    var w := LeadingWord(a);
    WordBeforeSpace(a, sep, b);
    TokensWordStep(a + sep + b);
    TokensWordStep(a);
    ConsAppend(w, Tokens(a[|w|..]), Tokens(b));
  }

  lemma ConsAppend<T>(x: T, ys: seq<T>, zs: seq<T>)
    ensures [x] + (ys + zs) == [x] + ys + zs
  {
  }

  /** Whitespace after a leading word ends it: a + sep + b starts with the
      same word as a, followed by the rest of a and then sep + b. */
  lemma WordBeforeSpace(a: string, sep: string, b: string)
    requires sep != [] && IsSpace(sep[0])
    requires a != [] && !IsSpace(a[0])
    ensures (a + sep + b)[0] == a[0]
    ensures LeadingWord(a + sep + b) == LeadingWord(a)
    ensures (a + sep + b)[|LeadingWord(a)|..] == a[|LeadingWord(a)|..] + sep + b
  {
    assert a + sep + b == a + (sep + b);
    assert (sep + b)[0] == sep[0];
    LeadingWordStops(a, sep + b);
  }

  /** A string starting with a word: that word, then the tokens after it. */
  lemma TokensWordStep(s: string)
    requires s != [] && !IsSpace(s[0])
    ensures Tokens(s) == [LeadingWord(s)] + Tokens(s[|LeadingWord(s)|..])
  {
  }

  /** A single word is its own only token. */
  lemma TokensOfWord(w: string)
    requires w != [] && NoSpace(w)
    ensures Tokens(w) == [w]
  {
    assert LeadingWord(w) == w;
    assert w[|w|..] == [];
  }

  // ---------------------------------------------------------------------
  // sep.join(parts) and str.split(sep)
  // ---------------------------------------------------------------------

  /** sep.join(ws) for a one-character separator. */
  function JoinWith(ws: seq<string>, sep: char): string
  {
    if ws == [] then []
    else if |ws| == 1 then ws[0]
    else ws[0] + [sep] + JoinWith(ws[1..], sep)
  }

  /** Joining whitespace-free parts with a non-whitespace separator gives a
      whitespace-free string. */
  lemma {:induction false} JoinWithNoSpace(ws: seq<string>, sep: char)
    requires !IsSpace(sep)
    requires forall i :: 0 <= i < |ws| ==> NoSpace(ws[i])
    ensures NoSpace(JoinWith(ws, sep))
  {
    if |ws| > 1 {
      JoinWithNoSpace(ws[1..], sep);
    }
  }

  /** The last part of a join stands after the last separator. */
  lemma {:induction false} JoinWithLast(ws: seq<string>, sep: char)
    requires |ws| >= 2
    ensures JoinWith(ws, sep) == JoinWith(ws[..|ws| - 1], sep) + [sep] + ws[|ws| - 1]
  {
    if |ws| > 2 {
      JoinWithLast(ws[1..], sep);
      assert ws[..|ws| - 1][1..] == ws[1..][..|ws| - 2];
    }
  }

  /** str.split(sep) for a one-character separator: the pieces between
      separators, always at least one (''.split('/') == ['']). */
  function Split(s: string, sep: char): (parts: seq<string>)
    ensures |parts| >= 1
    ensures forall i :: 0 <= i < |parts| ==> sep !in parts[i]
  {
    if s == [] then [[]]
    else
      var rest := Split(s[1..], sep);
      if s[0] == sep then [[]] + rest else [[s[0]] + rest[0]] + rest[1..]
  }

  /** Splitting and re-joining with the same separator gives back the string. */
  lemma {:induction false} JoinSplit(s: string, sep: char)
    ensures JoinWith(Split(s, sep), sep) == s
  {
    if s != [] {
      var rest := Split(s[1..], sep);
      JoinSplit(s[1..], sep);
      if s[0] == sep {
        assert ([[]] + rest)[1..] == rest;
      } else if |rest| == 1 {
        assert JoinWith(Split(s, sep), sep) == [s[0]] + rest[0];
      } else {
        var parts := [[s[0]] + rest[0]] + rest[1..];
        assert parts[1..] == rest[1..];
        assert JoinWith(rest, sep) == rest[0] + [sep] + JoinWith(rest[1..], sep);
        assert JoinWith(parts, sep) == [s[0]] + JoinWith(rest, sep);
        assert s == [s[0]] + s[1..];
      }
    }
  }

  /** The last part of str.split(sep) is the text after the last separator,
      or the whole string when it holds none. */
  lemma LastPartIsTail(s: string, sep: char)
    ensures var last := Split(s, sep)[|Split(s, sep)| - 1];
      && |last| <= |s| && last == s[|s| - |last|..]
      && (|last| == |s| || s[|s| - |last| - 1] == sep)
  {
    var parts := Split(s, sep);
    JoinSplit(s, sep);
    if |parts| >= 2 {
      JoinWithLast(parts, sep);
    }
  }

  /** A string without the separator is one part. */
  lemma {:induction false} SplitNoSep(w: string, sep: char)
    requires sep !in w
    ensures Split(w, sep) == [w]
  {
    if w != [] {
      assert sep !in w[1..];
      SplitNoSep(w[1..], sep);
      assert w == [w[0]] + w[1..];
    }
  }

  /** A separator-free prefix followed by the separator is the first part. */
  lemma {:induction false} SplitCons(w: string, sep: char, t: string)
    requires sep !in w
    ensures Split(w + [sep] + t, sep) == [w] + Split(t, sep)
  {
    if w == [] {
      assert w + [sep] + t == [sep] + t;
      assert ([sep] + t)[1..] == t;
    } else {
      assert (w + [sep] + t)[1..] == w[1..] + [sep] + t;
      assert sep !in w[1..];
      SplitCons(w[1..], sep, t);
      assert w == [w[0]] + w[1..];
    }
  }

  /** Joining separator-free parts and splitting again gives back the parts. */
  lemma {:induction false} SplitJoin(ws: seq<string>, sep: char)
    requires |ws| >= 1
    requires forall i :: 0 <= i < |ws| ==> sep !in ws[i]
    ensures Split(JoinWith(ws, sep), sep) == ws
  {
    if |ws| == 1 {
      SplitNoSep(ws[0], sep);
    } else {
      SplitJoin(ws[1..], sep);
      SplitCons(ws[0], sep, JoinWith(ws[1..], sep));
      assert ws == [ws[0]] + ws[1..];
    }
  }

  /** str.split(sep) gives one more part than there are separators. */
  lemma {:induction false} SplitCount(s: string, sep: char)
    ensures |Split(s, sep)| == multiset(s)[sep] + 1
  {
    if s != [] {
      SplitCount(s[1..], sep);
      assert s == [s[0]] + s[1..];
      assert multiset(s) == multiset{s[0]} + multiset(s[1..]);
    }
  }

  // ---------------------------------------------------------------------
  // str.strip(ch)
  // ---------------------------------------------------------------------

  /** n copies of ch. */
  function Repeat(ch: char, n: nat): (s: string)
    ensures |s| == n
    ensures forall i :: 0 <= i < n ==> s[i] == ch
  {
    seq(n, _ => ch)
  }

  /** str.lstrip(ch): drop every leading ch. */
  function TrimStart(s: string, ch: char): (r: string)
    ensures |r| <= |s| && r == s[|s| - |r|..]
    ensures forall i :: 0 <= i < |s| - |r| ==> s[i] == ch
    ensures r == [] || r[0] != ch
  {
    if s != [] && s[0] == ch then TrimStart(s[1..], ch) else s
  }

  /** str.rstrip(ch): drop every trailing ch. */
  function TrimEnd(s: string, ch: char): (r: string)
    ensures |r| <= |s| && r == s[..|r|]
    ensures forall i :: |r| <= i < |s| ==> s[i] == ch
    ensures r == [] || r[|r| - 1] != ch
  {
    if s != [] && s[|s| - 1] == ch then TrimEnd(s[..|s| - 1], ch) else s
  }

  /** str.strip(ch): drop every leading and trailing ch. */
  function Strip(s: string, ch: char): (r: string)
    ensures r == [] || (r[0] != ch && r[|r| - 1] != ch)
  {
    var t := TrimStart(s, ch);
    var r := TrimEnd(t, ch);
    assert r != [] ==> r[0] == t[0];
    r
  }

  lemma {:induction false} TrimStartRepeat(n: nat, x: string, ch: char)
    ensures TrimStart(Repeat(ch, n) + x, ch) == TrimStart(x, ch)
  {
    if n > 0 {
      assert (Repeat(ch, n) + x)[1..] == Repeat(ch, n - 1) + x;
      TrimStartRepeat(n - 1, x, ch);
    } else {
      assert Repeat(ch, n) + x == x;
    }
  }

  lemma {:induction false} TrimEndRepeat(x: string, n: nat, ch: char)
    ensures TrimEnd(x + Repeat(ch, n), ch) == TrimEnd(x, ch)
  {
    if n > 0 {
      var s := x + Repeat(ch, n);
      assert s[..|s| - 1] == x + Repeat(ch, n - 1);
      TrimEndRepeat(x, n - 1, ch);
    } else {
      assert x + Repeat(ch, n) == x;
    }
  }

  /** Strip undoes any padding with ch of a string that neither starts nor
      ends with ch. */
  lemma StripPadded(i: nat, r: string, j: nat, ch: char)
    requires r == [] || (r[0] != ch && r[|r| - 1] != ch)
    ensures Strip(Repeat(ch, i) + r + Repeat(ch, j), ch) == r
  {
    var s := Repeat(ch, i) + r + Repeat(ch, j);
    assert s == Repeat(ch, i) + (r + Repeat(ch, j));
    TrimStartRepeat(i, r + Repeat(ch, j), ch);
    if r == [] {
      assert r + Repeat(ch, j) == [] + Repeat(ch, j);
      TrimStartRepeat(j, [], ch);
      assert Repeat(ch, j) + [] == Repeat(ch, j);
    } else {
      TrimEndRepeat(r, j, ch);
    }
  }

  lemma TrimStartPart(s: string, ch: char)
    ensures s == Repeat(ch, |s| - |TrimStart(s, ch)|) + TrimStart(s, ch)
  {
    var t := TrimStart(s, ch);
    var k := |s| - |t|;
    var pad := s[..k];
    forall i | 0 <= i < |pad|
      ensures pad[i] == ch
    {
      assert pad[i] == s[i];
    }
    AllRepeat(pad, ch);
    assert s[k..] == t;
    assert s == pad + s[k..];
  }

  lemma TrimEndPart(t: string, ch: char)
    ensures t == TrimEnd(t, ch) + Repeat(ch, |t| - |TrimEnd(t, ch)|)
  {
    var r := TrimEnd(t, ch);
    AllRepeat(t[|r|..], ch);
    assert t == t[..|r|] + t[|r|..];
  }

  /** A string made only of ch is a repetition of ch. */
  lemma AllRepeat(s: string, ch: char)
    requires forall i :: 0 <= i < |s| ==> s[i] == ch
    ensures s == Repeat(ch, |s|)
  {
  }

  /** Every string is its stripped form padded with ch on both sides. */
  lemma StripDecomposes(s: string, ch: char)
    ensures exists i: nat, j: nat :: s == Repeat(ch, i) + (Strip(s, ch) + Repeat(ch, j))
  {
    var t := TrimStart(s, ch);
    var r := TrimEnd(t, ch);
    TrimStartPart(s, ch);
    TrimEndPart(t, ch);
    var pre, post := Repeat(ch, |s| - |t|), Repeat(ch, |t| - |r|);
    assert s == pre + (r + post);
  }

  // ---------------------------------------------------------------------
  // str(n) and str.zfill(width)
  // ---------------------------------------------------------------------

  predicate IsDigit(ch: char) {
    '0' <= ch <= '9'
  }

  predicate IsDigits(s: string) {
    forall i :: 0 <= i < |s| ==> IsDigit(s[i])
  }

  function DigitChar(d: nat): (ch: char)
    requires d < 10
    ensures IsDigit(ch)
  {
    ('0' as int + d) as char
  }

  function DigitOf(ch: char): (d: nat)
    requires IsDigit(ch)
    ensures d < 10
  {
    ch as int - '0' as int
  }

  /** str(n) for n >= 0: decimal digits without a leading zero. */
  function DecimalString(n: nat): (s: string)
    ensures |s| >= 1 && IsDigits(s)
    ensures s[0] == '0' ==> n == 0
  {
    if n < 10 then [DigitChar(n)] else DecimalString(n / 10) + [DigitChar(n % 10)]
  }

  /** The number a string of decimal digits denotes ('' denotes 0). */
  function DigitsValue(s: string): nat
    requires IsDigits(s)
  {
    if s == [] then 0 else 10 * DigitsValue(s[..|s| - 1]) + DigitOf(s[|s| - 1])
  }

  /** str(n) denotes n. */
  lemma {:induction false} DecimalValue(n: nat)
    ensures DigitsValue(DecimalString(n)) == n
  {
    if n >= 10 {
      DecimalValue(n / 10);
      var s := DecimalString(n);
      assert s[..|s| - 1] == DecimalString(n / 10);
    }
  }

  /** Leading zeros do not change the number a digit string denotes. */
  lemma {:induction false} ZerosValue(k: nat, s: string)
    requires IsDigits(s)
    ensures IsDigits(Repeat('0', k) + s)
    ensures DigitsValue(Repeat('0', k) + s) == DigitsValue(s)
    decreases |s|, k
  {
    var z := Repeat('0', k);
    assert IsDigits(z + s);
    if s != [] {
      var t := z + s;
      assert t[..|t| - 1] == z + s[..|s| - 1];
      ZerosValue(k, s[..|s| - 1]);
    } else if k > 0 {
      assert z + s == z;
      assert z[..k - 1] == Repeat('0', k - 1);
      assert Repeat('0', k - 1) + [] == Repeat('0', k - 1);
      ZerosValue(k - 1, []);
    }
  }

  /** str.zfill(width): pad on the left with '0' to width characters,
      keeping a leading '+' or '-' in front of the zeros; a string already
      width long or longer is returned unchanged (never truncated). */
  function ZFill(s: string, width: int): (r: string)
    ensures |r| == if |s| >= width then |s| else width
  {
    if |s| >= width then s
    else
      var fill := Repeat('0', width - |s|);
      if s != [] && (s[0] == '+' || s[0] == '-') then [s[0]] + fill + s[1..] else fill + s
  }

  /** Zero-filling a digit string keeps it a digit string with the same
      value, ending in the original digits. */
  lemma ZFillDigits(d: string, width: int)
    requires IsDigits(d)
    ensures IsDigits(ZFill(d, width)) && DigitsValue(ZFill(d, width)) == DigitsValue(d)
    ensures var r := ZFill(d, width); r[|r| - |d|..] == d
  {
    if |d| < width {
      var k := width - |d|;
      ZerosValue(k, d);
      if d != [] {
        assert d[0] != '+' && d[0] != '-';
      }
      var r := ZFill(d, width);
      assert r == Repeat('0', k) + d;
      assert r[|r| - |d|..] == d;
    }
  }
}
