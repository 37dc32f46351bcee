/** The pieces of Python's string handling that the edge-list readers use:
    `str.strip()`, `str.split()` (both without arguments) and `int(token)`. */
module Text {
  import opened Wrappers

  /** The characters for which Python's `str.isspace()` holds; `strip()` and `split()`
      without arguments cut at exactly these. */
  predicate IsSpace(ch: char) {
    || ch == ' '
    || ('\t' <= ch <= '\r')
    || ('\U{1C}' <= ch <= '\U{1F}')
    || ch == '\U{85}' || ch == '\U{A0}' || ch == '\U{1680}'
    || ('\U{2000}' <= ch <= '\U{200A}')
    || ch == '\U{2028}' || ch == '\U{2029}' || ch == '\U{202F}'
    || ch == '\U{205F}' || ch == '\U{3000}'
  }

  predicate AllSpace(s: string) {
    forall i :: 0 <= i < |s| ==> IsSpace(s[i])
  }

  /** `s.lstrip()`. */
  function TrimLeft(s: string): (r: string)
    ensures |r| <= |s|
    ensures |r| > 0 ==> !IsSpace(r[0])
    decreases |s|
  {
    if |s| > 0 && IsSpace(s[0]) then TrimLeft(s[1..]) else s
  }

  /** `s.lstrip()` removes a whitespace prefix and nothing else. */
  lemma {:induction false} TrimLeftMeaning(s: string)
    ensures TrimLeft(s) == s[|s| - |TrimLeft(s)|..]
    ensures AllSpace(s[..|s| - |TrimLeft(s)|])
    decreases |s|
  {
    if |s| > 0 && IsSpace(s[0]) {
      TrimLeftMeaning(s[1..]);
      var k := |s| - |TrimLeft(s)|;
      assert s[..k] == [s[0]] + s[1..][..k - 1];
    }
  }

  /** `s.rstrip()`. */
  function TrimRight(s: string): (r: string)
    ensures |r| <= |s|
    ensures |r| > 0 ==> !IsSpace(r[|r| - 1])
    decreases |s|
  {
    if |s| > 0 && IsSpace(s[|s| - 1]) then TrimRight(s[..|s| - 1]) else s
  }

  /** `s.rstrip()` removes a whitespace suffix and nothing else. */
  lemma {:induction false} TrimRightMeaning(s: string)
    ensures TrimRight(s) == s[..|TrimRight(s)|]
    ensures AllSpace(s[|TrimRight(s)|..])
    decreases |s|
  {
    if |s| > 0 && IsSpace(s[|s| - 1]) {
      TrimRightMeaning(s[..|s| - 1]);
      var k := |TrimRight(s)|;
      assert s[k..] == s[..|s| - 1][k..] + [s[|s| - 1]];
    }
  }

  /** `s.strip()`: the line without its leading and trailing whitespace. */
  function Strip(s: string): string {
    TrimRight(TrimLeft(s))
  }

  /** What stripping leaves: nothing for an all-whitespace line, otherwise a run that
      neither starts nor ends with whitespace and starts at the first non-whitespace
      character of the line. */
  lemma StripMeaning(s: string)
    ensures |Strip(s)| == 0 <==> AllSpace(s)
    ensures |Strip(s)| > 0 ==> !IsSpace(Strip(s)[0]) && !IsSpace(Strip(s)[|Strip(s)| - 1])
    ensures |Strip(s)| > 0 ==> exists k :: 0 <= k < |s| && Strip(s)[0] == s[k] && AllSpace(s[..k])
  {
    var left := TrimLeft(s);
    var r := TrimRight(left);
    TrimLeftMeaning(s);
    TrimRightMeaning(left);
    var k := |s| - |left|;
    assert s == s[..k] + left;
    if |r| == 0 {
      assert AllSpace(left) by { assert left[|r|..] == left; }
    } else {
      assert r[0] == left[0] == s[k];
    }
  }

  /** The longest prefix of `s` free of whitespace. */
  function Word(s: string): (w: string)
    ensures |w| <= |s|
    ensures |s| > 0 && !IsSpace(s[0]) ==> |w| > 0
    decreases |s|
  {
    if |s| > 0 && !IsSpace(s[0]) then [s[0]] + Word(s[1..]) else []
  }

  /** The word is a whitespace-free prefix that stops at whitespace or at the end. */
  lemma {:induction false} WordMeaning(s: string)
    ensures Word(s) == s[..|Word(s)|]
    ensures forall i :: 0 <= i < |Word(s)| ==> !IsSpace(Word(s)[i])
    ensures |Word(s)| < |s| ==> IsSpace(s[|Word(s)|])
    decreases |s|
  {
    if |s| > 0 && !IsSpace(s[0]) {
      WordMeaning(s[1..]);
      var w := Word(s);
      assert w == [s[0]] + Word(s[1..]);
      assert forall i :: 1 <= i < |w| ==> w[i] == Word(s[1..])[i - 1];
    }
  }

  /** The characters of `s` that are not whitespace, in order. */
  function NonSpace(s: string): string
    decreases |s|
  {
    if |s| == 0 then []
    else if IsSpace(s[0]) then NonSpace(s[1..])
    else [s[0]] + NonSpace(s[1..])
  }

  function Concat(words: seq<string>): string
    decreases |words|
  {
    if |words| == 0 then [] else words[0] + Concat(words[1..])
  }

  /** A field of a split line: non-empty, without whitespace. */
  predicate IsField(w: string) {
    |w| > 0 && forall i :: 0 <= i < |w| ==> !IsSpace(w[i])
  }

  /** `s.split()`: the maximal runs of non-whitespace characters. */
  function Split(s: string): seq<string>
    decreases |s|
  {
    var t := TrimLeft(s);
    if |t| == 0 then []
    else
      var w := Word(t);
      [w] + Split(t[|w|..])
  }

  /** Every piece of a split line is a field. */
  lemma {:induction false} SplitFields(s: string)
    ensures forall k :: 0 <= k < |Split(s)| ==> IsField(Split(s)[k])
    decreases |s|
  {
    var t := TrimLeft(s);
    if |t| > 0 {
      var w := Word(t);
      WordMeaning(t);
      SplitFields(t[|w|..]);
      assert Split(s) == [w] + Split(t[|w|..]);
    }
  }

  lemma {:induction false} NonSpaceAppend(a: string, b: string)
    ensures NonSpace(a + b) == NonSpace(a) + NonSpace(b)
    decreases |a|
  {
    if |a| > 0 {
      assert (a + b)[1..] == a[1..] + b;
      NonSpaceAppend(a[1..], b);
    } else {
      assert a + b == b;
    }
  }

  lemma {:induction false} NonSpaceOfSpaces(s: string)
    requires AllSpace(s)
    ensures NonSpace(s) == []
    decreases |s|
  {
    if |s| > 0 {
      NonSpaceOfSpaces(s[1..]);
    }
  }

  lemma {:induction false} NonSpaceOfWord(s: string)
    requires forall i :: 0 <= i < |s| ==> !IsSpace(s[i])
    ensures NonSpace(s) == s
    decreases |s|
  {
    if |s| > 0 {
      NonSpaceOfWord(s[1..]);
      assert s == [s[0]] + s[1..];
    }
  }

  /** Splitting loses nothing but whitespace: the fields, glued together, are the
      non-whitespace characters of the line. */
  lemma {:induction false} SplitKeepsText(s: string)
    ensures Concat(Split(s)) == NonSpace(s)
    ensures |Split(s)| == 0 <==> AllSpace(s)
    decreases |s|
  {
    var t := TrimLeft(s);
    TrimLeftMeaning(s);
    var pre := s[..|s| - |t|];
    assert s == pre + t;
    NonSpaceAppend(pre, t);
    NonSpaceOfSpaces(pre);
    if |t| == 0 {
      assert AllSpace(s) by {
        assert s == pre;
      }
    } else {
      var w := Word(t);
      WordMeaning(t);
      assert t == w + t[|w|..];
      NonSpaceAppend(w, t[|w|..]);
      NonSpaceOfWord(w);
      SplitKeepsText(t[|w|..]);
      assert Split(s) == [w] + Split(t[|w|..]);
      assert Concat(Split(s)) == w + Concat(Split(t[|w|..]));
      assert !IsSpace(s[|s| - |t|]);
    }
  }

  predicate IsDigit(ch: char) {
    '0' <= ch <= '9'
  }

  /** A run of decimal digits, single underscores allowed between two digits, as
      Python's `int()` accepts it. */
  predicate ValidDigits(s: string) {
    && |s| > 0
    && IsDigit(s[0])
    && IsDigit(s[|s| - 1])
    && forall i :: 0 <= i < |s| ==>
         IsDigit(s[i]) || (s[i] == '_' && i + 1 < |s| && IsDigit(s[i + 1]))
  }

  function DigitValue(ch: char): nat {
    if IsDigit(ch) then ch as int - '0' as int else 0
  }

  /** The decimal value of a digit run; underscores are separators and carry no value. */
  function DigitsValue(s: string): nat
    decreases |s|
  {
    if |s| == 0 then 0
    else if s[|s| - 1] == '_' then DigitsValue(s[..|s| - 1])
    else DigitsValue(s[..|s| - 1]) * 10 + DigitValue(s[|s| - 1])
  }

  /** Python's `int(token)` for a whitespace-free token: an optional sign, then digits.
      `None` stands for the `ValueError` Python raises. */
  function ParseInt(s: string): Option<int> {
    if |s| > 0 && (s[0] == '+' || s[0] == '-') then
      if ValidDigits(s[1..]) then
        var magnitude: int := DigitsValue(s[1..]);
        Some(if s[0] == '-' then -magnitude else magnitude)
      else None
    else if ValidDigits(s) then Some(DigitsValue(s))
    else None
  }

  function DigitChar(d: nat): char
    requires d < 10
  {
    ('0' as int + d) as char
  }

  /** `str(n)` for a natural number. */
  function ShowNat(n: nat): string
    decreases n
  {
    if n < 10 then [DigitChar(n)] else ShowNat(n / 10) + [DigitChar(n % 10)]
  }

  /** `str(x)` for an integer. */
  function ShowInt(x: int): string {
    if x < 0 then "-" + ShowNat(-x) else ShowNat(x)
  }

  lemma {:induction false} ShowNatDigits(n: nat)
    ensures |ShowNat(n)| > 0
    ensures forall i :: 0 <= i < |ShowNat(n)| ==> IsDigit(ShowNat(n)[i])
    ensures DigitsValue(ShowNat(n)) == n
    decreases n
  {
    if n >= 10 {
      ShowNatDigits(n / 10);
      var s := ShowNat(n);
      assert s[..|s| - 1] == ShowNat(n / 10);
    }
  }

  /** `int(str(x)) == x`: the parser reads back every integer Python prints. */
  lemma ParseShowRoundTrip(x: int)
    ensures ParseInt(ShowInt(x)) == Some(x)
  {
    if x < 0 {
      ShowNatDigits(-x);
      assert ShowInt(x)[1..] == ShowNat(-x);
    } else {
      ShowNatDigits(x);
    }
  }

  /** `str(x)` never contains whitespace and is never empty. */
  lemma ShowIntIsField(x: int)
    ensures IsField(ShowInt(x))
    ensures ShowInt(x)[0] == '-' || IsDigit(ShowInt(x)[0])
  {
    ShowNatDigits(if x < 0 then -x else x);
  }

  lemma {:induction false} WordOfField(w: string, rest: string)
    requires IsField(w)
    requires |rest| == 0 || IsSpace(rest[0])
    ensures Word(w + rest) == w
    decreases |w|
  {
    assert (w + rest)[0] == w[0];
    if |w| > 1 {
      assert (w + rest)[1..] == w[1..] + rest;
      WordOfField(w[1..], rest);
    } else {
      assert (w + rest)[1..] == rest;
    }
  }

  lemma SplitFieldThen(w: string, rest: string)
    requires IsField(w)
    requires |rest| == 0 || IsSpace(rest[0])
    ensures Split(w + rest) == [w] + Split(rest)
  {
    var line := w + rest;
    assert line[0] == w[0];
    assert TrimLeft(line) == line;
    WordOfField(w, rest);
    WordMeaning(line);
    assert line[|w|..] == rest;
    if |rest| > 0 {
      assert TrimLeft(rest) == TrimLeft(rest[1..]);
    }
  }

  lemma SplitAfterSpace(b: string)
    requires IsField(b)
    ensures Split(" " + b) == [b]
  {
    assert (" " + b)[1..] == b;
    assert TrimLeft(" " + b) == TrimLeft(b) == b;
    SplitFieldThen(b, []);
    assert b + [] == b;
  }

  /** Stripping leaves a line of two fields unchanged. */
  lemma StripTwoFields(a: string, b: string)
    requires IsField(a) && IsField(b)
    ensures Strip(a + " " + b) == a + " " + b
  {
    var line := a + " " + b;
    assert line[0] == a[0];
    assert line[|line| - 1] == b[|b| - 1];
    assert TrimLeft(line) == line;
    assert TrimRight(line) == line;
  }

  /** A line written as `f"{a} {b}"` from two fields splits back into those fields. */
  lemma SplitTwoFields(a: string, b: string)
    requires IsField(a) && IsField(b)
    ensures Split(a + " " + b) == [a, b]
  {
    var rest := " " + b;
    assert a + " " + b == a + rest;
    assert rest[0] == ' ';
    SplitFieldThen(a, rest);
    SplitAfterSpace(b);
    assert [a] + [b] == [a, b];
  }
}
