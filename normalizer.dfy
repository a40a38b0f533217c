/** Turning the recogniser's raw text into a reading: trim it, map the
    look-alike letters the recogniser is allowed to emit to digits (`O` to `0`;
    `I`, `l` and `|` to `1`), drop everything that is not an ASCII digit, and
    keep at most the first 32 digits. */
module TextNormalizer {

  /** Longest reading kept. */
  const MaxDigits: nat := 32

  predicate IsDigit(c: char) {
    '0' <= c <= '9'
  }

  predicate IsDigitString(s: string) {
    forall k | 0 <= k < |s| :: IsDigit(s[k])
  }

  /** The characters JavaScript's `String.prototype.trim` removes: white space
      and line terminators. */
  predicate IsJsSpace(c: char) {
    c == '\t' || c == '\n' || c == '\U{000B}' || c == '\U{000C}' || c == '\r'
    || c == ' ' || c == '\U{00A0}' || c == '\U{1680}' || '\U{2000}' <= c <= '\U{200A}'
    || c == '\U{2028}' || c == '\U{2029}' || c == '\U{202F}' || c == '\U{205F}'
    || c == '\U{3000}' || c == '\U{FEFF}'
  }

  predicate AllSpace(s: string) {
    forall k | 0 <= k < |s| :: IsJsSpace(s[k])
  }

  /** `s` without its leading white space. */
  function TrimStart(s: string): (t: string)
    ensures |t| <= |s|
    ensures t == [] || !IsJsSpace(t[0])
  {
    if s != [] && IsJsSpace(s[0]) then TrimStart(s[1..]) else s
  }

  /** What `TrimStart` cuts off is white space, and what it keeps is the rest. */
  lemma {:induction false} TrimStartCuts(s: string)
    ensures var t := TrimStart(s);
      t == s[|s| - |t|..] && AllSpace(s[..|s| - |t|])
    decreases |s|
  {
    if s != [] && IsJsSpace(s[0]) {
      var u := s[1..];
      var t := TrimStart(u);
      TrimStartCuts(u);
      assert t == s[|s| - |t|..];
      var cut, cutRest := s[..|s| - |t|], u[..|u| - |t|];
      forall k | 0 <= k < |cut|
        ensures IsJsSpace(cut[k])
      {
        if k > 0 {
          assert cut[k] == cutRest[k - 1];
        }
      }
    }
  }

  /** `s` without its trailing white space. */
  function TrimEnd(s: string): (t: string)
    ensures |t| <= |s|
    ensures t == [] || !IsJsSpace(t[|t| - 1])
  {
    if s != [] && IsJsSpace(s[|s| - 1]) then TrimEnd(s[..|s| - 1]) else s
  }

  /** What `TrimEnd` cuts off is white space, and what it keeps is the rest. */
  lemma {:induction false} TrimEndCuts(s: string)
    ensures var t := TrimEnd(s);
      t == s[..|t|] && AllSpace(s[|t|..])
    decreases |s|
  {
    if s != [] && IsJsSpace(s[|s| - 1]) {
      var u := s[..|s| - 1];
      var t := TrimEnd(u);
      TrimEndCuts(u);
      assert t == s[..|t|];
      var cut, cutRest := s[|t|..], u[|t|..];
      forall k | 0 <= k < |cut|
        ensures IsJsSpace(cut[k])
      {
        if k < |cutRest| {
          assert cut[k] == cutRest[k];
        }
      }
    }
  }

  /** `s.trim()`: `s` without its leading and trailing white space. */
  function Trim(s: string): (t: string)
    ensures |t| <= |s|
    ensures t == [] || (!IsJsSpace(t[0]) && !IsJsSpace(t[|t| - 1]))
  {
    var u := TrimStart(s);
    TrimEndCuts(u);
    TrimEnd(u)
  }

  /** The trimmed text is a stretch of `s` with only white space before and
      after it. */
  lemma TrimSplit(s: string) returns (i: nat)
    ensures var t := Trim(s);
      i + |t| <= |s| && t == s[i..i + |t|] && AllSpace(s[..i]) && AllSpace(s[i + |t|..])
  {
    var u := TrimStart(s);
    var t := TrimEnd(u);
    TrimStartCuts(s);
    TrimEndCuts(u);
    i := |s| - |u|;
    assert s[i + |t|..] == u[|t|..];
    assert t == s[i..i + |t|];
  }

  /** Trimming a trimmed text changes nothing. */
  lemma TrimIdempotent(s: string)
    ensures Trim(Trim(s)) == Trim(s)
  {
    var t := Trim(s);
    assert TrimStart(t) == t;
    assert TrimEnd(t) == t;
  }

  /** A text trims to nothing exactly when it is all white space. */
  lemma TrimEmpty(s: string)
    ensures Trim(s) == [] <==> AllSpace(s)
  {
    var u := TrimStart(s);
    TrimStartCuts(s);
    TrimEndCuts(u);
    assert s[..|s| - |u|] == s ==> u == [];
    if u != [] {
      assert s[|s| - |u|] == u[0];
    }
  }

  /** `s.replace(/[...]/g, replacement)`: every character of `targets` replaced. */
  function ReplaceAll(s: string, targets: set<char>, replacement: char): (t: string)
    ensures |t| == |s|
    ensures forall k | 0 <= k < |s| :: t[k] == if s[k] in targets then replacement else s[k]
  {
    if s == [] then []
    else [if s[0] in targets then replacement else s[0]] + ReplaceAll(s[1..], targets, replacement)
  }

  /** `s.replace(/[^0-9]/g, "")`: the digits of `s`, in order. */
  function KeepDigits(s: string): (t: string)
    ensures IsDigitString(t) && |t| <= |s|
  {
    if s == [] then []
    else (if IsDigit(s[0]) then [s[0]] else []) + KeepDigits(s[1..])
  }

  /** `s.slice(0, n)`. */
  function Slice(s: string, n: nat): (t: string)
    ensures |t| <= n && t <= s
    ensures |s| <= n ==> t == s
  {
    if |s| <= n then s else s[..n]
  }

  /** The reading extracted from the recogniser's raw text. */
  function ReadDigits(raw: string): (digits: string)
    ensures IsDigitString(digits) && |digits| <= MaxDigits
  {
    var normalized := ReplaceAll(ReplaceAll(Trim(raw), {'O'}, '0'), {'I', 'l', '|'}, '1');
    Slice(KeepDigits(normalized), MaxDigits)
  }

  /** Reference definition of the reading, one character at a time: the digit
      each character of the recogniser's alphabet stands for, and nothing for
      any other character. */
  function DigitOf(c: char): string {
    if IsDigit(c) then [c]
    else if c == 'O' then ['0']
    else if c == 'I' || c == 'l' || c == '|' then ['1']
    else []
  }

  function DigitsOf(s: string): (t: string)
  {
    if s == [] then [] else DigitOf(s[0]) + DigitsOf(s[1..])
  }

  lemma {:induction false} DigitsOfAppend(a: string, b: string)
    ensures DigitsOf(a + b) == DigitsOf(a) + DigitsOf(b)
    decreases |a|
  {
    if a == [] {
      assert a + b == b;
    } else {
      assert (a + b)[0] == a[0];
      assert (a + b)[1..] == a[1..] + b;
      DigitsOfAppend(a[1..], b);
    }
  }

  lemma {:induction false} DigitsOfSpace(s: string)
    requires AllSpace(s)
    ensures DigitsOf(s) == []
    decreases |s|
  {
    if s != [] {
      DigitsOfSpace(s[1..]);
    }
  }

  /** White space stands for no digit, so trimming never changes the reading. */
  lemma DigitsOfTrim(s: string)
    ensures DigitsOf(Trim(s)) == DigitsOf(s)
  {
    DigitsOfTrimStart(s);
    DigitsOfTrimEnd(TrimStart(s));
  }

  lemma {:induction false} DigitsOfTrimStart(s: string)
    ensures DigitsOf(TrimStart(s)) == DigitsOf(s)
    decreases |s|
  {
    if s != [] && IsJsSpace(s[0]) {
      DigitsOfTrimStart(s[1..]);
      assert DigitOf(s[0]) == [];
    }
  }

  lemma DigitsOfTrimEnd(s: string)
    ensures DigitsOf(TrimEnd(s)) == DigitsOf(s)
  {
    var t := TrimEnd(s);
    TrimEndCuts(s);
    assert s == t + s[|t|..];
    DigitsOfAppend(t, s[|t|..]);
    DigitsOfSpace(s[|t|..]);
  }

  /** The two substitutions followed by the digit filter pick out exactly the
      reference digits. */
  lemma {:induction false} SubstituteThenFilter(s: string)
    ensures KeepDigits(ReplaceAll(ReplaceAll(s, {'O'}, '0'), {'I', 'l', '|'}, '1')) == DigitsOf(s)
    decreases |s|
  {
    if s != [] {
      var u := ReplaceAll(ReplaceAll(s, {'O'}, '0'), {'I', 'l', '|'}, '1');
      assert u[1..] == ReplaceAll(ReplaceAll(s[1..], {'O'}, '0'), {'I', 'l', '|'}, '1');
      SubstituteThenFilter(s[1..]);
    }
  }

  /** The reading is the first 32 reference digits of the raw text: the in-order
      subsequence of its digits and look-alike letters, mapped to digits. */
  lemma ReadDigitsIsReference(raw: string)
    ensures ReadDigits(raw) == Slice(DigitsOf(raw), MaxDigits)
  {
    SubstituteThenFilter(Trim(raw));
    DigitsOfTrim(raw);
  }

  /** A digit string stands for itself. */
  lemma {:induction false} DigitsOfDigitString(s: string)
    requires IsDigitString(s)
    ensures DigitsOf(s) == s
    decreases |s|
  {
    if s != [] {
      DigitsOfDigitString(s[1..]);
      assert s == [s[0]] + s[1..];
    }
  }

  /** Normalising a reading again gives the same reading. */
  lemma ReadDigitsIdempotent(raw: string)
    ensures ReadDigits(ReadDigits(raw)) == ReadDigits(raw)
  {
    ReadDigitsOfDigits(ReadDigits(raw));
  }

  /** A reading is empty exactly when the raw text holds no digit and no
      look-alike letter. */
  lemma {:induction false} ReadDigitsEmpty(raw: string)
    ensures ReadDigits(raw) == [] <==>
      forall k | 0 <= k < |raw| :: !IsDigit(raw[k]) && raw[k] !in {'O', 'I', 'l', '|'}
    decreases |raw|
  {
    ReadDigitsIsReference(raw);
    DigitsOfEmpty(raw);
  }

  lemma {:induction false} DigitsOfEmpty(s: string)
    ensures DigitsOf(s) == [] <==>
      forall k | 0 <= k < |s| :: !IsDigit(s[k]) && s[k] !in {'O', 'I', 'l', '|'}
    decreases |s|
  {
    if s != [] {
      DigitsOfEmpty(s[1..]);
      assert forall k | 1 <= k < |s| :: s[k] == s[1..][k - 1];
    }
  }

  /** The look-alike letters: "O1l23" reads as "01123". */
  lemma ReadDigitsLookAlikes()
    ensures ReadDigits("O1l23") == "01123"
  {
    DigitsOfLookAlikes();
    ReadDigitsIsReference("O1l23");
  }

  lemma DigitsOfLookAlikes()
    ensures DigitsOf("O1l23") == "01123"
  {
    DigitsOfCons('O', "1l23");
    DigitsOfCons('1', "l23");
    DigitsOfCons('l', "23");
    DigitsOfCons('2', "3");
    DigitsOfCons('3', "");
  }

  /** Surrounding white space and stray letters contribute nothing. */
  lemma ReadDigitsStray()
    ensures ReadDigits(" 4I|x5\n") == "4115"
  {
    DigitsOfStray();
    ReadDigitsIsReference(" 4I|x5\n");
  }

  lemma DigitsOfStray()
    ensures DigitsOf(" 4I|x5\n") == "4115"
  {
    DigitsOfCons(' ', "4I|x5\n");
    DigitsOfCons('4', "I|x5\n");
    DigitsOfCons('I', "|x5\n");
    DigitsOfCons('|', "x5\n");
    DigitsOfCons('x', "5\n");
    DigitsOfCons('5', "\n");
    DigitsOfCons('\n', "");
  }

  lemma DigitsOfCons(c: char, s: string)
    ensures DigitsOf([c] + s) == DigitOf(c) + DigitsOf(s)
  {
    assert ([c] + s)[1..] == s;
  }

  /** A text of digits reads as its first 32 digits. */
  lemma ReadDigitsOfDigits(s: string)
    requires IsDigitString(s)
    ensures ReadDigits(s) == if |s| <= MaxDigits then s else s[..MaxDigits]
  {
    ReadDigitsIsReference(s);
    DigitsOfDigitString(s);
  }
}
