/** The version order of opkg packages, in C and in Python. */
module OpkgVersions {
  // The pointer loops of 2.12/tools/opkg-utils/opkg-compare-versions.c and the list loops of
  // 2.12/tools/opkg-utils/opkg.py, both against the token-by-token order of Debian Policy, section 5.6.12.

  import opened Wrappers

  predicate Digit(c: char) { '0' <= c <= '9' }

  predicate Letter(c: char) { 'a' <= c <= 'z' || 'A' <= c <= 'Z' }

  /** Plain ASCII text, as both programs take for granted; '\0' ends a C string. */
  ghost predicate Ascii(s: string)
  {
    forall k :: 0 <= k < |s| ==> 0 < s[k] as int < 128
  }

  function Sign(x: int): int { if x < 0 then -1 else if x > 0 then 1 else 0 }

  /** `order` of a character that is there. */
  function Order(c: char): int
  {
    if c == '~' then -1
    else if Digit(c) then 0
    else if Letter(c) then c as int
    else c as int + 256
  }

  /** `order` of the first character, or of the end of the string. */
  function HeadOrder(s: string): int
  {
    if s == [] then 0 else Order(s[0])
  }

  predicate DigitFirst(s: string) { s != [] && Digit(s[0]) }

  predicate WordFirst(s: string) { s != [] && !Digit(s[0]) }

  // --- The order of Debian Policy ---

  /** A stretch of characters that are no digits, and the number that follows it. */
  datatype Token = Token(word: string, number: nat)

  function Word(s: string): (w: string)
    ensures |w| <= |s| && (WordFirst(s) ==> w != [])
  {
    if WordFirst(s) then [s[0]] + Word(s[1..]) else []
  }

  function Digits(s: string): (d: string)
    ensures |d| <= |s| && (DigitFirst(s) ==> d != [])
  {
    if DigitFirst(s) then [s[0]] + Digits(s[1..]) else []
  }

  /** The number that a digit string stands for. */
  function Number(d: string): nat
  {
    if d == [] then 0 else 10 * Number(d[..|d| - 1]) + (if Digit(d[|d| - 1]) then d[|d| - 1] as int - '0' as int else 0)
  }

  function AfterWord(s: string): (r: string)
    ensures |r| == |s| - |Word(s)|
  {
    s[|Word(s)|..]
  }

  function AfterDigits(s: string): (r: string)
    ensures |r| == |s| - |Digits(s)|
  {
    s[|Digits(s)|..]
  }

  /** A version string as alternating words and numbers. */
  function Tokens(s: string): seq<Token>
    decreases |s|
  {
    if s == [] then []
    else
      var t := AfterWord(s);
      assert Word(s) == [] ==> t == s;
      [Token(Word(s), Number(Digits(t)))] + Tokens(AfterDigits(t))
  }

  /** Words are compared character by character, with the end of a word between '~' and everything else. */
  function CompareWords(a: string, b: string): int
  {
    if a == [] && b == [] then 0
    else if HeadOrder(a) != HeadOrder(b) then Sign(HeadOrder(a) - HeadOrder(b))
    else if a == [] || b == [] then 0
    else CompareWords(a[1..], b[1..])
  }

  function First(t: seq<Token>): Token { if t == [] then Token("", 0) else t[0] }

  function Rest(t: seq<Token>): seq<Token> { if t == [] then [] else t[1..] }

  /** Token by token; a version that ends goes on with empty words and zeros. */
  function CompareTokens(a: seq<Token>, b: seq<Token>): int
    decreases |a| + |b|
  {
    if a == [] && b == [] then 0
    else
      var w := CompareWords(First(a).word, First(b).word);
      if w != 0 then w
      else if First(a).number != First(b).number then Sign(First(a).number - First(b).number)
      else CompareTokens(Rest(a), Rest(b))
  }

  function Compare(a: string, b: string): int
  {
    CompareTokens(Tokens(a), Tokens(b))
  }

  // --- It is a total preorder ---

  /** A word holds no digits and only ASCII. */
  ghost predicate IsWord(s: string)
  {
    Ascii(s) && forall k :: 0 <= k < |s| ==> !Digit(s[k])
  }

  lemma {:induction false} OrderOfWord(c: char, d: char)
    requires 0 < c as int < 128 && 0 < d as int < 128 && !Digit(c)
    ensures Order(c) != 0
    ensures Order(c) == Order(d) ==> c == d
  {
  }

  /** Words compare equal exactly when they are equal. */
  lemma {:induction false} CompareWordsEqual(a: string, b: string)
    requires IsWord(a) && IsWord(b)
    ensures CompareWords(a, b) == 0 <==> a == b
    ensures CompareWords(a, b) == -CompareWords(b, a)
    ensures -1 <= CompareWords(a, b) <= 1
    decreases |a|
  {
    if a != [] {
      OrderOfWord(a[0], if b != [] then b[0] else 'x');
    }
    if b != [] {
      OrderOfWord(b[0], 'x');
    }
    if a != [] && b != [] {
      CompareWordsEqual(a[1..], b[1..]);
      assert a == [a[0]] + a[1..] && b == [b[0]] + b[1..];
    }
  }

  lemma {:induction false} CompareWordsTransitive(a: string, b: string, c: string)
    requires IsWord(a) && IsWord(b) && IsWord(c)
    ensures CompareWords(a, b) <= 0 && CompareWords(b, c) <= 0 ==> CompareWords(a, c) <= 0
    ensures CompareWords(a, b) <= 0 && CompareWords(b, c) <= 0 && (CompareWords(a, b) < 0 || CompareWords(b, c) < 0) ==> CompareWords(a, c) < 0
    decreases |a|
  {
    CompareWordsEqual(a, b);
    CompareWordsEqual(b, c);
    CompareWordsEqual(a, c);
    if a != [] {
      OrderOfWord(a[0], 'x');
    }
    if b != [] {
      OrderOfWord(b[0], 'x');
    }
    if c != [] {
      OrderOfWord(c[0], 'x');
    }
    if a != [] && b != [] && c != [] {
      CompareWordsTransitive(a[1..], b[1..], c[1..]);
    }
  }

  ghost predicate TokensOk(t: seq<Token>)
  {
    forall k :: 0 <= k < |t| ==> IsWord(t[k].word)
  }

  lemma {:induction false} WordIsWord(s: string)
    requires Ascii(s)
    ensures IsWord(Word(s))
    decreases |s|
  {
    if WordFirst(s) {
      WordIsWord(s[1..]);
    }
  }

  lemma {:induction false} TokensAreOk(s: string)
    requires Ascii(s)
    ensures TokensOk(Tokens(s))
    decreases |s|
  {
    hide Tokens, Digits, Number, IsWord;
    TokensStep(s);
    if s != [] {
      var rest := AfterDigits(AfterWord(s));
      WordIsWord(s);
      AsciiAfter(s, |Word(s)|);
      AsciiAfter(AfterWord(s), |Digits(AfterWord(s))|);
      TokensAreOk(rest);
    }
  }

  lemma {:induction false} AsciiAfter(s: string, n: nat)
    requires Ascii(s) && n <= |s|
    ensures Ascii(s[n..])
  {
  }

  lemma {:induction false} TokensStep(s: string)
    ensures if s == [] then Tokens(s) == [] else
      && Tokens(s) == [Token(Word(s), Number(Digits(AfterWord(s))))] + Tokens(AfterDigits(AfterWord(s)))
      && |AfterDigits(AfterWord(s))| < |s|
  {
    if s != [] && Word(s) == [] {
      assert AfterWord(s) == s;
    }
  }

  lemma {:induction false} CompareTokensAntisymmetric(a: seq<Token>, b: seq<Token>)
    requires TokensOk(a) && TokensOk(b)
    ensures CompareTokens(a, b) == -CompareTokens(b, a)
    ensures -1 <= CompareTokens(a, b) <= 1
    decreases |a| + |b|
  {
    CompareWordsEqual(First(a).word, First(b).word);
    if a != [] || b != [] {
      CompareTokensAntisymmetric(Rest(a), Rest(b));
    }
  }

  /** Missing tokens count as empty ones, so comparing goes on as long as wanted. */
  lemma {:induction false} CompareTokensStep(a: seq<Token>, b: seq<Token>)
    ensures CompareTokens(a, b) ==
      var w := CompareWords(First(a).word, First(b).word);
      if w != 0 then w
      else if First(a).number != First(b).number then Sign(First(a).number - First(b).number)
      else CompareTokens(Rest(a), Rest(b))
  {
  }

  lemma {:induction false} CompareTokensTransitive(a: seq<Token>, b: seq<Token>, c: seq<Token>)
    requires TokensOk(a) && TokensOk(b) && TokensOk(c)
    ensures CompareTokens(a, b) <= 0 && CompareTokens(b, c) <= 0 ==> CompareTokens(a, c) <= 0
    decreases |a| + |b| + |c|
  {
    CompareTokensStep(a, b);
    CompareTokensStep(b, c);
    CompareTokensStep(a, c);
    CompareWordsTransitive(First(a).word, First(b).word, First(c).word);
    CompareWordsEqual(First(a).word, First(b).word);
    CompareWordsEqual(First(b).word, First(c).word);
    if a != [] || b != [] || c != [] {
      CompareTokensTransitive(Rest(a), Rest(b), Rest(c));
    }
  }

  /** The order on version strings is reflexive, total, antisymmetric in sign and transitive. */
  lemma {:induction false} CompareIsPreorder(a: string, b: string, c: string)
    requires Ascii(a) && Ascii(b) && Ascii(c)
    ensures Compare(a, a) == 0
    ensures Compare(a, b) == -Compare(b, a) && -1 <= Compare(a, b) <= 1
    ensures Compare(a, b) <= 0 && Compare(b, c) <= 0 ==> Compare(a, c) <= 0
  {
    TokensAreOk(a);
    TokensAreOk(b);
    TokensAreOk(c);
    CompareTokensAntisymmetric(Tokens(a), Tokens(a));
    CompareTokensAntisymmetric(Tokens(a), Tokens(b));
    CompareTokensTransitive(Tokens(a), Tokens(b), Tokens(c));
  }

  // --- What the loops see ---

  lemma {:induction false} DigitsIs(s: string)
    ensures Digits(s) == s[..|Digits(s)|] && !DigitFirst(s[|Digits(s)|..])
    decreases |s|
  {
    if DigitFirst(s) {
      DigitsIs(s[1..]);
      assert s[|Digits(s)|..] == s[1..][|Digits(s[1..])|..];
    }
  }

  /** The comparison from a number on: first the numbers, then the rest. */
  function CompareNumbers(a: string, b: string): int
  {
    var x, y := Digits(a), Digits(b);
    if Number(x) != Number(y) then Sign(Number(x) - Number(y)) else Compare(AfterDigits(a), AfterDigits(b))
  }

  lemma {:induction false} TokensIs(p: string, a: string)
    requires IsWord(p) && !WordFirst(a)
    ensures First(Tokens(p + a)) == Token(p, Number(Digits(a))) && Rest(Tokens(p + a)) == Tokens(AfterDigits(a))
    ensures Tokens(p + a) == [] ==> a == []
  {
    hide Tokens, Digits, Number, IsWord, AfterDigits, Word;
    WordPrefix(p, a);
    WordNone(a);
    assert p + [] == p;
    assert AfterWord(p + a) == a;
    TokensStep(p + a);
    TokensStep([]);
    DigitsNone();
  }

  lemma {:induction false} WordNone(a: string)
    ensures !WordFirst(a) ==> Word(a) == []
  {
  }

  lemma {:induction false} DigitsNone()
    ensures Digits([]) == [] && AfterDigits([]) == [] && Number([]) == 0
  {
  }

  lemma {:induction false} WordPrefix(p: string, a: string)
    requires IsWord(p)
    ensures Word(p + a) == p + Word(a)
    decreases |p|
  {
    if p == [] {
      assert p + a == a;
    } else {
      WordPrefix(p[1..], a);
      assert p + a == [p[0]] + (p[1..] + a);
      assert (p + a)[1..] == p[1..] + a;
    }
  }

  /** The same word `p` in front of both: it is the numbers that count. */
  lemma {:induction false} SameWords(p: string, a: string, b: string)
    requires IsWord(p) && !WordFirst(a) && !WordFirst(b)
    ensures Compare(p + a, p + b) == CompareNumbers(a, b)
  {
    TokensIs(p, a);
    TokensIs(p, b);
    CompareWordsEqual(p, p);
    CompareTokensStep(Tokens(p + a), Tokens(p + b));
    hide Tokens, Digits, Number;
  }

  /** The order of characters: "~", then the end of a word, then letters as in ASCII, then all others as in ASCII. */
  lemma {:induction false} OrderIs(c: char, d: char)
    requires 0 < c as int < 128 && 0 < d as int < 128 && !('0' <= c <= '9') && !('0' <= d <= '9')
    ensures c == '~' <==> Order(c) < 0
    ensures c != '~' ==> Order(c) > 0 == HeadOrder("")
    ensures var letter := 'A' <= c <= 'Z' || 'a' <= c <= 'z';
      var letters := 'A' <= d <= 'Z' || 'a' <= d <= 'z';
      c != '~' && d != '~' ==> (Order(c) < Order(d) <==> (letter && !letters) || (letter == letters && c < d))
  {
  }

  /** After the same beginning `p`, a first difference in order decides. */
  lemma {:induction false} WordsDiffer(p: string, a: string, b: string)
    requires IsWord(p) && Ascii(a) && Ascii(b) && HeadOrder(a) != HeadOrder(b)
    ensures Compare(p + a, p + b) == Sign(HeadOrder(a) - HeadOrder(b)) != 0
  {
    hide Tokens, Digits, Number, IsWord, Word, AfterWord, CompareTokens, CompareWords, HeadOrder;
    WordPrefix(p, a);
    WordPrefix(p, b);
    FirstWord(p + a);
    FirstWord(p + b);
    WordOrder(a);
    WordOrder(b);
    CommonPrefix(p, Word(a), Word(b));
    CompareTokensStep(Tokens(p + a), Tokens(p + b));
  }

  lemma {:induction false} FirstWord(s: string)
    ensures First(Tokens(s)).word == Word(s)
  {
    hide Digits, Number, AfterWord, AfterDigits;
    TokensStep(s);
  }

  lemma {:induction false} WordOrder(s: string)
    ensures HeadOrder(Word(s)) == HeadOrder(s)
  {
  }

  lemma {:induction false} CommonPrefix(p: string, u: string, v: string)
    requires HeadOrder(u) != HeadOrder(v)
    ensures CompareWords(p + u, p + v) == Sign(HeadOrder(u) - HeadOrder(v))
    decreases |p|
  {
    if p == [] {
      assert p + u == u && p + v == v;
    } else {
      CommonPrefix(p[1..], u, v);
      assert (p + u)[1..] == p[1..] + u && (p + v)[1..] == p[1..] + v;
    }
  }

  /** A leading zero does not count. */
  lemma {:induction false} SkipZero(a: string)
    requires a != [] && a[0] == '0'
    ensures SameNumber(a, a[1..])
  {
    ZeroNumber(Digits(a[1..]));
    assert AfterDigits(a) == AfterDigits(a[1..]);
  }

  /** The same number, and the same after it. */
  ghost predicate SameNumber(a: string, b: string)
  {
    Number(Digits(a)) == Number(Digits(b)) && AfterDigits(a) == AfterDigits(b)
  }

  lemma {:induction false} SameNumberTransitive(a: string, b: string, c: string)
    ensures SameNumber(a, a)
    ensures SameNumber(a, b) && SameNumber(b, c) ==> SameNumber(a, c)
  {
  }

  lemma {:induction false} SameNumbersCompare(a: string, a': string, b: string, b': string)
    requires SameNumber(a, a') && SameNumber(b, b')
    ensures CompareNumbers(a, b) == CompareNumbers(a', b')
  {
  }

  lemma {:induction false} ZeroNumber(d: string)
    ensures Number(['0'] + d) == Number(d)
    decreases |d|
  {
    if d != [] {
      ZeroNumber(d[..|d| - 1]);
      assert (['0'] + d)[..|d|] == ['0'] + d[..|d| - 1];
    }
  }

  ghost predicate AllDigits(d: string)
  {
    forall k :: 0 <= k < |d| ==> Digit(d[k])
  }

  /** `first_diff` after the digits `x` and `y`. */
  function FirstDiff(x: string, y: string): int
    requires |x| == |y|
  {
    if x == [] then 0
    else
      var n := |x| - 1;
      var f := FirstDiff(x[..n], y[..n]);
      if f != 0 then f else x[n] as int - y[n] as int
  }

  /** Of two numbers of the same length the first differing digit decides. */
  lemma {:induction false} FirstDiffDecides(x: string, y: string)
    requires |x| == |y| && AllDigits(x) && AllDigits(y)
    ensures Sign(Number(x) - Number(y)) == Sign(FirstDiff(x, y))
    ensures FirstDiff(x, y) == 0 <==> x == y
    decreases |x|
  {
    if x != [] {
      var n := |x| - 1;
      FirstDiffDecides(x[..n], y[..n]);
      assert x == x[..n] + [x[n]] && y == y[..n] + [y[n]];
    }
  }

  lemma {:induction false} NumberPositive(x: string)
    requires x != [] && AllDigits(x) && x[0] != '0'
    ensures Number(x) > 0
    decreases |x|
  {
    if |x| > 1 {
      NumberPositive(x[..|x| - 1]);
    }
  }

  /** A number without leading zeros is greater than any with fewer digits. */
  lemma {:induction false} LongerIsGreater(x: string, y: string)
    requires AllDigits(x) && AllDigits(y) && |x| > |y| && x[0] != '0'
    ensures Number(x) > Number(y)
    decreases |y|
  {
    if y == [] {
      NumberPositive(x);
    } else {
      LongerIsGreater(x[..|x| - 1], y[..|y| - 1]);
    }
  }

  lemma {:induction false} AfterPrefix(x: string, a: string)
    ensures Digits(x + a) == x + Digits(a) ==> AfterDigits(x + a) == AfterDigits(a)
  {
    hide Digits;
  }

  lemma {:induction false} DigitsPrefix(x: string, a: string)
    requires AllDigits(x)
    ensures Digits(x + a) == x + Digits(a) && AfterDigits(x + a) == AfterDigits(a)
    ensures AllDigits(Digits(a))
    decreases |x|
  {
    DigitsAreDigits(a);
    if x == [] {
      assert x + a == a;
    } else {
      DigitsPrefix(x[1..], a);
      assert x + a == [x[0]] + (x[1..] + a);
      assert (x + a)[1..] == x[1..] + a;
      assert Digits(x + a) == x + Digits(a);
    }
    AfterPrefix(x, a);
  }

  lemma {:induction false} DigitsHead(a: string)
    ensures !DigitFirst(a) ==> Digits(a) == [] && AfterDigits(a) == a
    ensures DigitFirst(a) ==> Digits(a) != [] && Digits(a)[0] == a[0]
  {
  }

  lemma {:induction false} DigitsAreDigits(a: string)
    ensures AllDigits(Digits(a))
    decreases |a|
  {
    if DigitFirst(a) {
      DigitsAreDigits(a[1..]);
    }
  }

  /** What is decided once one of two numbers, read in step, is at its end. */
  lemma {:induction false} NumbersRead(x: string, a: string, y: string, b: string)
    requires |x| == |y| && AllDigits(x) && AllDigits(y)
    requires !DigitFirst(a) || !DigitFirst(b)
    requires x + a != [] ==> (x + a)[0] != '0'
    requires y + b != [] ==> (y + b)[0] != '0'
    ensures CompareNumbers(x + a, y + b) ==
      if DigitFirst(a) then 1
      else if DigitFirst(b) then -1
      else if FirstDiff(x, y) != 0 then Sign(FirstDiff(x, y))
      else Compare(a, b)
  {
    hide Digits, AfterDigits, Number, Compare, FirstDiff;
    DigitsPrefix(x, a);
    DigitsPrefix(y, b);
    FirstDiffDecides(x, y);
    DigitsHead(a);
    DigitsHead(b);
    if DigitFirst(a) {
      assert (x + Digits(a))[0] == (x + a)[0];
      LongerIsGreater(x + Digits(a), y + Digits(b));
    } else if DigitFirst(b) {
      assert (y + Digits(b))[0] == (y + b)[0];
      LongerIsGreater(y + Digits(b), x + Digits(a));
    } else {
      assert x + [] == x && y + [] == y;
    }
  }

  // --- The C program ---

  /** `*p` for a pointer `i` characters into `s`. */
  function At(s: string, i: nat): char
    requires i <= |s|
  {
    if i < |s| then s[i] else '\0'
  }

  /** `order(*p)`. */
  function OrderAt(s: string, i: nat): int
    requires i <= |s|
  {
    var c := At(s, i);
    if c == '~' then -1
    else if Digit(c) then 0
    else if c == '\0' then 0
    else if Letter(c) then c as int
    else c as int + 256
  }

  lemma {:induction false} AtIs(s: string, i: nat)
    requires Ascii(s) && i <= |s|
    ensures At(s, i) == '\0' <==> s[i..] == []
    ensures i < |s| ==> s[i..] != [] && s[i..][0] == s[i] == At(s, i) && s[i..][1..] == s[i + 1..]
    ensures Digit(At(s, i)) || At(s, i) == '0' ==> i < |s| && Digit(s[i])
    ensures i < |s| <==> At(s, i) != '\0'
    ensures Digit(At(s, i)) <==> DigitFirst(s[i..])
    ensures At(s, i) != '\0' && !Digit(At(s, i)) <==> WordFirst(s[i..])
    ensures OrderAt(s, i) == HeadOrder(s[i..])
    ensures Ascii(s[i..])
  {
  }

  /** Between `i0` and `i` the string reads `p`. */
  ghost predicate Passed(s: string, i0: nat, p: string, i: nat)
  {
    i0 <= i <= |s| && s[i0..] == p + s[i..]
  }

  lemma {:induction false} PassedIs(s: string, i0: nat, p: string, i: nat)
    ensures Passed(s, i0, p, i) <==> i0 <= i <= |s| && s[i0..] == p + s[i..]
    ensures i0 <= |s| ==> Passed(s, i0, [], i0)
    ensures Passed(s, i0, p, i) ==> |p| == i - i0
  {
    if Passed(s, i0, p, i) {
      assert |s[i0..]| == |p| + |s[i..]|;
    }
  }

  lemma {:induction false} WordStep(p: string, val: string, i0: nat, i: nat, ref: string, j0: nat, j: nat)
    requires IsWord(p) && Ascii(val) && Ascii(ref) && Passed(val, i0, p, i) && Passed(ref, j0, p, j)
    requires (WordFirst(val[i..]) || WordFirst(ref[j..])) && HeadOrder(val[i..]) == HeadOrder(ref[j..])
    ensures i < |val| && j < |ref| && val[i] == ref[j] && IsWord(p + [val[i]])
    ensures Passed(val, i0, p + [val[i]], i + 1) && Passed(ref, j0, p + [val[i]], j + 1)
  {
    var a, b := val[i..], ref[j..];
    if a != [] && b != [] {
      OrderOfWord(if WordFirst(a) then a[0] else b[0], if WordFirst(a) then b[0] else a[0]);
    } else {
      OrderOfWord(if WordFirst(a) then a[0] else b[0], 'x');
    }
  }

  /** The comparison of the words that `val` and `ref` are at: done if they differ, else the pointers after them. */
  method SkipWords(val: string, ref: string, i0: nat, j0: nat) returns (differ: bool, r: int, i: nat, j: nat)
    requires Ascii(val) && Ascii(ref) && i0 <= |val| && j0 <= |ref|
    ensures differ ==> r != 0 && Sign(r) == Compare(val[i0..], ref[j0..])
    ensures !differ ==> i0 <= i <= |val| && j0 <= j <= |ref|
    ensures !differ ==> Compare(val[i0..], ref[j0..]) == CompareNumbers(val[i..], ref[j..])
    ensures !differ && i == i0 && j == j0 ==> !WordFirst(val[i..]) && !WordFirst(ref[j..])
  {
    hide *;
    i, j, differ, r := i0, j0, false, 0;
    ghost var p: string := [];
    EmptyIsWord();
    PassedIs(val, i0, p, i);
    PassedIs(ref, j0, p, j);
    while (At(val, i) != '\0' && !Digit(At(val, i))) || (At(ref, j) != '\0' && !Digit(At(ref, j)))
      invariant i0 <= i <= |val| && j0 <= j <= |ref| && IsWord(p)
      invariant Passed(val, i0, p, i) && Passed(ref, j0, p, j)
      decreases |val| - i
    {
      AtIs(val, i);
      AtIs(ref, j);
      var vc, rc := OrderAt(val, i), OrderAt(ref, j);
      if vc != rc {
        PassedIs(val, i0, p, i);
        PassedIs(ref, j0, p, j);
        WordsDiffer(p, val[i..], ref[j..]);
        SignIs(vc - rc);
        return true, vc - rc, i, j;
      }
      WordStep(p, val, i0, i, ref, j0, j);
      p := p + [val[i]];
      i := i + 1;
      j := j + 1;
    }
    AtIs(val, i);
    AtIs(ref, j);
    PassedIs(val, i0, p, i);
    PassedIs(ref, j0, p, j);
    SameWords(p, val[i..], ref[j..]);
  }

  lemma {:induction false} EmptyIsWord()
    ensures IsWord([]) && AllDigits([]) && FirstDiff([], []) == 0
  {
  }

  lemma {:induction false} SignIs(x: int)
    ensures Sign(x) == if x < 0 then -1 else if x > 0 then 1 else 0
  {
  }

  method SkipZeros(s: string, i0: nat) returns (i: nat)
    requires Ascii(s) && i0 <= |s|
    ensures i0 <= i <= |s| && At(s, i) != '0'
    ensures SameNumber(s[i0..], s[i..])
  {
    hide *;
    i := i0;
    SameNumberTransitive(s[i0..], s[i0..], s[i0..]);
    while At(s, i) == '0'
      invariant i0 <= i <= |s|
      invariant SameNumber(s[i0..], s[i..])
      decreases |s| - i
    {
      AtIs(s, i);
      SkipZero(s[i..]);
      SameNumberTransitive(s[i0..], s[i..], s[i + 1..]);
      i := i + 1;
    }
  }

  /** The comparison of the numbers that `val` and `ref` are at: decided if they differ, else the pointers after
      them. */
  method ReadNumbers(val: string, ref: string, i0: nat, j0: nat) returns (decided: bool, r: int, i: nat, j: nat)
    requires Ascii(val) && Ascii(ref) && i0 <= |val| && j0 <= |ref|
    ensures decided ==> r != 0 && Sign(r) == CompareNumbers(val[i0..], ref[j0..])
    ensures !decided ==> i0 <= i <= |val| && j0 <= j <= |ref|
    ensures !decided ==> CompareNumbers(val[i0..], ref[j0..]) == Compare(val[i..], ref[j..])
    ensures !decided && i == i0 && j == j0 ==> !DigitFirst(val[i..]) && !DigitFirst(ref[j..])
  {
    hide *;
    var i1 := SkipZeros(val, i0);
    var j1 := SkipZeros(ref, j0);
    SameNumbersCompare(val[i0..], val[i1..], ref[j0..], ref[j1..]);
    i, j, decided, r := i1, j1, true, 0;
    ghost var x: string, y: string := [], [];
    var firstDiff := 0;
    InStepStart(val, i1, ref, j1);
    while Digit(At(val, i)) && Digit(At(ref, j))
      invariant i1 <= i <= |val| && j1 <= j <= |ref|
      invariant InStep(val, i1, i, x, ref, j1, j, y, firstDiff)
      decreases |val| - i
    {
      AtIs(val, i);
      AtIs(ref, j);
      InStepNext(val, i1, i, x, ref, j1, j, y, firstDiff);
      if firstDiff == 0 {
        firstDiff := At(val, i) as int - At(ref, j) as int;
      }
      x, y := x + [val[i]], y + [ref[j]];
      i := i + 1;
      j := j + 1;
    }
    AtIs(val, i);
    AtIs(ref, j);
    InStepEnd(val, i1, i, x, ref, j1, j, y, firstDiff);
    SignIs(1);
    SignIs(-1);
    SignIs(firstDiff);
    if Digit(At(val, i)) {
      return true, 1, i, j;
    }
    if Digit(At(ref, j)) {
      return true, -1, i, j;
    }
    if firstDiff != 0 {
      return true, firstDiff, i, j;
    }
    decided := false;
  }

  /** The loop has read the digits `x` of `val` from `i1` to `i`, and as many digits `y` of `ref`. */
  ghost predicate InStep(val: string, i1: nat, i: nat, x: string, ref: string, j1: nat, j: nat, y: string,
                         firstDiff: int)
  {
    && |x| == |y| && AllDigits(x) && AllDigits(y) && firstDiff == FirstDiff(x, y)
    && Passed(val, i1, x, i) && Passed(ref, j1, y, j)
  }

  lemma {:induction false} InStepStart(val: string, i1: nat, ref: string, j1: nat)
    requires i1 <= |val| && j1 <= |ref|
    ensures InStep(val, i1, i1, [], ref, j1, j1, [], 0)
  {
    PassedIs(val, i1, [], i1);
    PassedIs(ref, j1, [], j1);
  }

  lemma {:induction false} InStepNext(val: string, i1: nat, i: nat, x: string, ref: string, j1: nat, j: nat, y: string,
                                      firstDiff: int)
    requires InStep(val, i1, i, x, ref, j1, j, y, firstDiff) && i < |val| && Digit(val[i]) && j < |ref| && Digit(ref[j])
    ensures InStep(val, i1, i + 1, x + [val[i]], ref, j1, j + 1, y + [ref[j]],
                   if firstDiff == 0 then val[i] as int - ref[j] as int else firstDiff)
  {
    hide Passed, FirstDiff, AllDigits;
    DigitStep(x, y, val, i1, i, ref, j1, j);
  }

  /** What the digits read decide once one of the numbers is at its end. */
  lemma {:induction false} InStepEnd(val: string, i1: nat, i: nat, x: string, ref: string, j1: nat, j: nat, y: string,
                                     firstDiff: int)
    requires InStep(val, i1, i, x, ref, j1, j, y, firstDiff) && i1 <= i <= |val| && j1 <= j <= |ref|
    requires At(val, i1) != '0' && At(ref, j1) != '0' && !(DigitFirst(val[i..]) && DigitFirst(ref[j..]))
    ensures CompareNumbers(val[i1..], ref[j1..]) ==
      if DigitFirst(val[i..]) then 1
      else if DigitFirst(ref[j..]) then -1
      else if firstDiff != 0 then Sign(firstDiff)
      else Compare(val[i..], ref[j..])
  {
    hide Compare, CompareNumbers, AllDigits, FirstDiff;
    NumbersRead(x, val[i..], y, ref[j..]);
  }

  /** `verrevcmp`; a null pointer stands for the empty string. The sign of the result is that of the order. */
  method VerRevCmp(val0: Option<string>, ref0: Option<string>) returns (r: int)
    requires Ascii(Text(val0)) && Ascii(Text(ref0))
    ensures Sign(r) == Compare(Text(val0), Text(ref0))
  {
    hide *;
    TextIs(val0);
    TextIs(ref0);
    var val := if val0.None? then "" else val0.value;
    var ref := if ref0.None? then "" else ref0.value;
    var i: nat, j: nat := 0, 0;
    assert val[0..] == val && ref[0..] == ref;
    while At(val, i) != '\0' || At(ref, j) != '\0'
      invariant i <= |val| && j <= |ref|
      invariant Compare(val[i..], ref[j..]) == Compare(val, ref)
      decreases |val| - i + (|ref| - j)
    {
      var i0, j0 := i, j;
      AtIs(val, i);
      AtIs(ref, j);
      var differ;
      differ, r, i, j := SkipWords(val, ref, i, j);
      if differ {
        return;
      }
      var decided;
      decided, r, i, j := ReadNumbers(val, ref, i, j);
      if decided {
        return;
      }
    }
    AtIs(val, i);
    AtIs(ref, j);
    assert val[i..] == [] && ref[j..] == [];
    NothingLeft();
    SignIs(0);
    return 0;
  }

  /** The string that a pointer stands for. */
  ghost function Text(s: Option<string>): string
  {
    if s.None? then "" else s.value
  }

  lemma {:induction false} TextIs(s: Option<string>)
    ensures Text(s) == if s.None? then "" else s.value
  {
  }

  lemma {:induction false} NothingLeft()
    ensures Compare([], []) == 0
  {
  }

  lemma {:induction false} DigitStep(x: string, y: string, val: string, i0: nat, i: nat, ref: string, j0: nat, j: nat)
    requires |x| == |y| && AllDigits(x) && AllDigits(y) && i < |val| && Digit(val[i]) && j < |ref| && Digit(ref[j])
    requires Passed(val, i0, x, i) && Passed(ref, j0, y, j)
    ensures AllDigits(x + [val[i]]) && AllDigits(y + [ref[j]])
    ensures FirstDiff(x + [val[i]], y + [ref[j]]) == if FirstDiff(x, y) != 0 then FirstDiff(x, y)
                                                     else val[i] as int - ref[j] as int
    ensures Passed(val, i0, x + [val[i]], i + 1) && Passed(ref, j0, y + [ref[j]], j + 1)
  {
    assert (x + [val[i]])[..|x|] == x && (y + [ref[j]])[..|y|] == y;
    assert val[i..] == [val[i]] + val[i + 1..] && ref[j..] == [ref[j]] + ref[j + 1..];
  }

  /** A parsed version of the C program; `revision` may be a null pointer. */
  datatype VersionRevision = VersionRevision(epoch: nat, version: Option<string>, revision: Option<string>)

  ghost predicate Plain(v: VersionRevision)
  {
    Ascii(Text(v.version)) && Ascii(Text(v.revision))
  }

  /** Epoch, then version, then revision. */
  ghost function CompareParsed(a: VersionRevision, b: VersionRevision): int
  {
    if a.epoch != b.epoch then Sign(a.epoch - b.epoch)
    else if Compare(Text(a.version), Text(b.version)) != 0 then Compare(Text(a.version), Text(b.version))
    else Compare(Text(a.revision), Text(b.revision))
  }

  /** `versioncompare`. */
  method VersionCompareC(version: VersionRevision, refversion: VersionRevision) returns (r: int)
    requires Plain(version) && Plain(refversion)
    ensures Sign(r) == CompareParsed(version, refversion)
    ensures version.epoch != refversion.epoch ==> -1 <= r <= 1
  {
    hide Compare, Ascii;
    if version.epoch > refversion.epoch {
      return 1;
    }
    if version.epoch < refversion.epoch {
      return -1;
    }
    r := VerRevCmp(version.version, refversion.version);
    if r != 0 {
      return;
    }
    r := VerRevCmp(version.revision, refversion.revision);
  }

  /** `versionsatisfied3`; None where the program exits over an unknown operator. Note that "<" and ">" include
      equality. */
  method VersionSatisfied(it: VersionRevision, ref: VersionRevision, op: string) returns (r: Option<bool>)
    requires Plain(it) && Plain(ref)
    ensures r.None? <==> op !in ["<=", "<", ">=", ">", "<<", ">>", "="]
    ensures r.Some? ==> (r.value <==>
      var c := CompareParsed(it, ref);
      if op == "<=" || op == "<" then c <= 0
      else if op == ">=" || op == ">" then c >= 0
      else if op == "<<" then c < 0
      else if op == ">>" then c > 0
      else c == 0)
  {
    hide CompareParsed, Plain;
    var c := VersionCompareC(it, ref);
    if op == "<=" || op == "<" {
      return Some(c <= 0);
    }
    if op == ">=" || op == ">" {
      return Some(c >= 0);
    }
    if op == "<<" {
      return Some(c < 0);
    }
    if op == ">>" {
      return Some(c > 0);
    }
    if op == "=" {
      return Some(c == 0);
    }
    return None;
  }

  // --- The Python program ---

  /** `order` of what `pop(0)` gave, if anything. */
  function OrderOf(x: Option<char>): int
  {
    if x.None? then 0
    else if x.value == '~' then -1
    else if Digit(x.value) then 0
    else if Letter(x.value) then x.value as int
    else 256 + x.value as int
  }

  function Popped(s: string): Option<char> { if s == [] then None else Some(s[0]) }

  function Left(s: string): string { if s == [] then [] else s[1..] }

  lemma {:induction false} PoppedIs(s: string)
    ensures OrderOf(Popped(s)) == HeadOrder(s)
    ensures s != [] ==> Left(s) == s[1..] && Popped(s) == Some(s[0])
    ensures |Left(s)| <= |s|
    ensures Ascii(s) ==> Ascii(Left(s))
    ensures WordFirst(s) <==> s != [] && !Digit(s[0])
    ensures DigitFirst(s) <==> s != [] && Digit(s[0])
    ensures s != [] && s[0] == '0' ==> DigitFirst(s)
  {
  }

  lemma {:induction false} PopStep(p: string, value: string, ref: string)
    requires IsWord(p) && Ascii(value) && Ascii(ref)
    requires (WordFirst(value) || WordFirst(ref)) && HeadOrder(value) == HeadOrder(ref)
    ensures value != [] && ref != [] && IsWord(p + [value[0]])
    ensures p + value == (p + [value[0]]) + Left(value) && p + ref == (p + [value[0]]) + Left(ref)
  {
    var a, b := value, ref;
    if a != [] && b != [] {
      OrderOfWord(if WordFirst(a) then a[0] else b[0], if WordFirst(a) then b[0] else a[0]);
    } else {
      OrderOfWord(if WordFirst(a) then a[0] else b[0], 'x');
    }
  }

  /** The alphanumeric loop. */
  method PopWords(value0: string, ref0: string) returns (differ: bool, r: int, value: string, ref: string)
    requires Ascii(value0) && Ascii(ref0)
    ensures differ ==> r == Compare(value0, ref0) != 0
    ensures !differ ==> Ascii(value) && Ascii(ref) && |value| <= |value0| && |ref| <= |ref0|
    ensures !differ ==> Compare(value0, ref0) == CompareNumbers(value, ref) && !WordFirst(value) && !WordFirst(ref)
    ensures !differ && |value| == |value0| && |ref| == |ref0| ==> value == value0 && ref == ref0
  {
    hide *;
    value, ref, differ, r := value0, ref0, false, 0;
    ghost var p: string := [];
    EmptyIsWord();
    assert p + value == value && p + ref == ref;
    PoppedIs(value);
    PoppedIs(ref);
    while (value != [] && !Digit(value[0])) || (ref != [] && !Digit(ref[0]))
      invariant Ascii(value) && Ascii(ref) && IsWord(p)
      invariant value0 == p + value && ref0 == p + ref
      decreases |value|
    {
      PoppedIs(value);
      PoppedIs(ref);
      ghost var a, b := value, ref;
      var vc := OrderOf(Popped(value));
      value := Left(value);
      var rc := OrderOf(Popped(ref));
      ref := Left(ref);
      if vc != rc {
        WordsDiffer(p, a, b);
        SignIs(vc - rc);
        return true, if vc < rc then -1 else 1, value, ref;
      }
      PopStep(p, a, b);
      p := p + [a[0]];
    }
    PoppedIs(value);
    PoppedIs(ref);
    SameWords(p, value, ref);
  }

  method PopZeros(s0: string) returns (s: string)
    requires Ascii(s0)
    ensures Ascii(s) && |s| <= |s0| && (s != [] ==> s[0] != '0') && (|s| == |s0| ==> s == s0)
    ensures SameNumber(s0, s)
  {
    hide *;
    s := s0;
    SameNumberTransitive(s0, s0, s0);
    while s != [] && s[0] == '0'
      invariant Ascii(s) && |s| <= |s0| && (|s| == |s0| ==> s == s0)
      invariant SameNumber(s0, s)
      decreases |s|
    {
      PoppedIs(s);
      SkipZero(s);
      SameNumberTransitive(s0, s, Left(s));
      s := Left(s);
    }
  }

  lemma {:induction false} PopDigit(x: string, y: string, a: string, b: string)
    requires |x| == |y| && AllDigits(x) && AllDigits(y) && DigitFirst(a) && DigitFirst(b)
    ensures AllDigits(x + [a[0]]) && AllDigits(y + [b[0]])
    ensures FirstDiff(x + [a[0]], y + [b[0]]) == if FirstDiff(x, y) != 0 then FirstDiff(x, y)
                                                 else a[0] as int - b[0] as int
    ensures x + a == (x + [a[0]]) + Left(a) && y + b == (y + [b[0]]) + Left(b)
  {
    assert (x + [a[0]])[..|x|] == x && (y + [b[0]])[..|y|] == y;
  }

  /** `int(c)` of a digit. */
  function DigitValue(c: char): int { c as int - '0' as int }

  lemma {:induction false} DigitValueIs(c: char)
    ensures DigitValue(c) == c as int - '0' as int
  {
  }

  /** The number loops. */
  method PopNumbers(value0: string, ref0: string) returns (decided: bool, r: int, value: string, ref: string)
    requires Ascii(value0) && Ascii(ref0)
    ensures decided ==> r == CompareNumbers(value0, ref0) != 0
    ensures !decided ==> Ascii(value) && Ascii(ref) && |value| <= |value0| && |ref| <= |ref0|
    ensures !decided ==> CompareNumbers(value0, ref0) == Compare(value, ref)
    ensures !decided && |value| == |value0| && |ref| == |ref0| ==> !DigitFirst(value0) && !DigitFirst(ref0)
  {
    hide *;
    value := PopZeros(value0);
    ref := PopZeros(ref0);
    SameNumbersCompare(value0, value, ref0, ref);
    ghost var a, b := value, ref;
    decided, r := true, 0;
    ghost var x: string, y: string := [], [];
    assert x + value == value && y + ref == ref;
    var firstDiff := 0;
    EmptyIsWord();
    PoppedIs(value);
    PoppedIs(ref);
    while value != [] && Digit(value[0]) && ref != [] && Digit(ref[0])
      invariant Ascii(value) && Ascii(ref) && |x| == |y| && AllDigits(x) && AllDigits(y) && firstDiff == FirstDiff(x, y)
      invariant a == x + value && b == y + ref
      decreases |value|
    {
      PoppedIs(value);
      PoppedIs(ref);
      PopDigit(x, y, value, ref);
      x, y := x + [value[0]], y + [ref[0]];
      if firstDiff == 0 {
        DigitValueIs(value[0]);
        DigitValueIs(ref[0]);
        firstDiff := DigitValue(value[0]) - DigitValue(ref[0]);
      }
      value := Left(value);
      ref := Left(ref);
    }
    PoppedIs(value);
    PoppedIs(ref);
    assert |x| == 0 ==> x + value == value && y + ref == ref;
    NumbersRead(x, value, y, ref);
    if value != [] && Digit(value[0]) {
      return true, 1, value, ref;
    }
    if ref != [] && Digit(ref[0]) {
      return true, -1, value, ref;
    }
    if firstDiff != 0 {
      SignIs(firstDiff);
      return true, if firstDiff > 0 then 1 else -1, value, ref;
    }
    decided := false;
  }

  /** `_versioncompare`: the order itself. */
  method VersionComparePy(selfversion: Option<string>, refversion: Option<string>) returns (r: int)
    requires Ascii(Text(selfversion)) && Ascii(Text(refversion))
    ensures r == Compare(Text(selfversion), Text(refversion))
  {
    hide *;
    TextIs(selfversion);
    TextIs(refversion);
    var value := if selfversion.None? then "" else selfversion.value;
    var ref := if refversion.None? then "" else refversion.value;
    while value != [] || ref != []
      invariant Ascii(value) && Ascii(ref)
      invariant Compare(value, ref) == Compare(Text(selfversion), Text(refversion))
      decreases |value| + |ref|
    {
      PoppedIs(value);
      PoppedIs(ref);
      var done, v, f;
      done, r, v, f := PopWords(value, ref);
      if done {
        return;
      }
      done, r, v, f := PopNumbers(v, f);
      if done {
        return;
      }
      PoppedIs(v);
      PoppedIs(f);
      value, ref := v, f;
    }
    NothingLeft();
    return 0;
  }

  /** Where `(.+?)(-r.+)?$` cuts a version: before the first "-r" that has something before and after it. */
  function RevisionAt(s: string, k: nat): (r: nat)
    requires k <= |s|
    ensures k <= r <= |s|
    decreases |s| - k
  {
    if k == |s| || (|s| - k > 2 && s[k] == '-' && s[k + 1] == 'r') then k else RevisionAt(s, k + 1)
  }

  function Upstream(s: string): string
  {
    if s == [] then [] else s[..RevisionAt(s, 1)]
  }

  function Revision(s: string): Option<string>
  {
    if s == [] || RevisionAt(s, 1) == |s| then None else Some(s[RevisionAt(s, 1)..])
  }

  /** A parsed version of the Python program. */
  datatype Version = Version(epoch: nat, version: string)

  /** A nonempty line. */
  ghost predicate Usable(v: Version)
  {
    v.version != [] && Ascii(v.version) && '\n' !in v.version
  }

  ghost function Parts(v: Version): VersionRevision
  {
    VersionRevision(v.epoch, Some(Upstream(v.version)), Revision(v.version))
  }

  lemma {:induction false} PartsArePlain(v: Version)
    requires Usable(v)
    ensures Plain(Parts(v)) && Text(Parts(v).version) + Text(Parts(v).revision) == v.version
  {
  }

  ghost function CompareVersions(a: Version, b: Version): int
  {
    CompareParsed(Parts(a), Parts(b))
  }

  /** `Version.compare`. */
  method VersionCompare(v: Version, ref: Version) returns (r: int)
    requires Usable(v) && Usable(ref)
    ensures r == CompareVersions(v, ref)
  {
    hide Compare, Ascii, Upstream, Revision;
    PartsArePlain(v);
    PartsArePlain(ref);
    if v.epoch > ref.epoch {
      return 1;
    } else if v.epoch < ref.epoch {
      return -1;
    }
    r := VersionComparePy(Some(Upstream(v.version)), Some(Upstream(ref.version)));
    if r == 0 {
      r := VersionComparePy(Revision(v.version), Revision(ref.version));
    }
  }

  /** Whole versions are ordered as well: reflexive, total, antisymmetric in sign and transitive. */
  lemma {:induction false} CompareParsedIsPreorder(a: VersionRevision, b: VersionRevision, c: VersionRevision)
    requires Plain(a) && Plain(b) && Plain(c)
    ensures CompareParsed(a, a) == 0
    ensures CompareParsed(a, b) == -CompareParsed(b, a)
    ensures CompareParsed(a, b) <= 0 && CompareParsed(b, c) <= 0 ==> CompareParsed(a, c) <= 0
  {
    hide Compare, Ascii;
    CompareIsPreorder(Text(a.version), Text(b.version), Text(c.version));
    CompareIsPreorder(Text(b.version), Text(c.version), Text(a.version));
    CompareIsPreorder(Text(c.version), Text(a.version), Text(b.version));
    CompareIsPreorder(Text(a.revision), Text(b.revision), Text(c.revision));
    CompareIsPreorder(Text(b.revision), Text(c.revision), Text(a.revision));
    CompareIsPreorder(Text(c.revision), Text(a.revision), Text(b.revision));
  }

  lemma {:induction false} CompareVersionsIsPreorder(a: Version, b: Version, c: Version)
    requires Usable(a) && Usable(b) && Usable(c)
    ensures CompareVersions(a, a) == 0
    ensures CompareVersions(a, b) == -CompareVersions(b, a)
    ensures CompareVersions(a, b) <= 0 && CompareVersions(b, c) <= 0 ==> CompareVersions(a, c) <= 0
  {
    PartsArePlain(a);
    PartsArePlain(b);
    PartsArePlain(c);
    CompareParsedIsPreorder(Parts(a), Parts(b), Parts(c));
  }

  /** What the C program makes of a version: its parser never fills in a revision. */
  ghost function Unsplit(v: Version): VersionRevision
  {
    VersionRevision(v.epoch, Some(v.version), Some(""))
  }

  /** What two upstream parts leave of each other: equal characters and equal numbers go, until one part is at its
      end or they differ. */
  function Strip(a: string, b: string): (r: (string, string))
    ensures |r.0| <= |a| && |r.1| <= |b|
    decreases |a| + |b|
  {
    if a == [] || b == [] then (a, b)
    else if Digit(a[0]) && Digit(b[0]) then
      if Number(Digits(a)) == Number(Digits(b)) then Strip(AfterDigits(a), AfterDigits(b)) else (a, b)
    else if a[0] == b[0] then Strip(a[1..], b[1..])
    else (a, b)
  }

  /** A leading "~", zeros apart: what sorts below the end of a version. */
  predicate BelowEnd(s: string)
  {
    s != [] && (s[0] == '~' || (Digit(s[0]) && Number(Digits(s)) == 0 && AfterDigits(s) != [] && AfterDigits(s)[0] == '~'))
  }

  /** One upstream part is at its end, and its version goes on with the "-r" part `r`, if any; the other upstream
      part goes on with `left`, and its version with the "-r" part `other`, if any. Whether what is left sorts alike
      against the end of a version, as in the Python program, and against `r`, as in the C program. */
  ghost predicate Fits(r: string, left: string, other: string)
  {
    || left == []
    || r == []
    || (if Digit(left[0]) then
          && Number(Digits(left)) == 0
          && if AfterDigits(left) == [] then Compare(r, other) > 0 else AfterDigits(left)[0] == '~'
        else if left[0] == '-' then
          var rest := left[1..] + other;
          HeadOrder(rest) > Order('r') || (rest == "r" && |r| > 2 && BelowEnd(r[2..]))
        else left[0] == '~' || Order(left[0]) > Order('-'))
  }

  /** What the upstream parts `u` and `v` leave of each other fits the "-r" parts `r` and `t`. */
  ghost predicate PartsAlike(u: string, v: string, r: string, t: string)
  {
    var (x, y) := Strip(u, v);
    (x != [] || Fits(r, y, t)) && (y != [] || Fits(t, x, r))
  }

  /** The two programs, exactly: the versions are of different epochs, or what their upstream parts leave of each other
      fits their "-r" parts. */
  ghost predicate Alike(a: Version, b: Version)
  {
    || a.epoch != b.epoch
    || PartsAlike(Upstream(a.version), Upstream(b.version), Text(Revision(a.version)), Text(Revision(b.version)))
  }

  /** Upstream parts first, and then "-r" parts. */
  ghost function InParts(u: string, v: string, r: string, t: string): int
  {
    if Compare(u, v) != 0 then Compare(u, v) else Compare(r, t)
  }

  /** The two programs order two versions alike exactly if the versions are `Alike`. */
  lemma {:induction false} ProgramsAgree(a: Version, b: Version)
    requires Usable(a) && Usable(b)
    ensures CompareVersions(a, b) == CompareParsed(Unsplit(a), Unsplit(b)) <==> Alike(a, b)
  {
    hide *;
    UsableIs(a);
    UsableIs(b);
    BothCompare(a, b);
    AlikeIs(a, b);
    RevisionIs(a.version);
    RevisionIs(b.version);
    StripDecides(a.version, b.version);
  }

  lemma {:induction false} UsableIs(v: Version)
    requires Usable(v)
    ensures v.version != [] && Ascii(v.version)
  {
  }

  lemma {:induction false} AlikeIs(a: Version, b: Version)
    ensures Alike(a, b) <==>
      || a.epoch != b.epoch
      || PartsAlike(Upstream(a.version), Upstream(b.version), Text(Revision(a.version)), Text(Revision(b.version)))
  {
  }

  lemma {:induction false} BothCompare(a: Version, b: Version)
    ensures CompareVersions(a, b) ==
      if a.epoch != b.epoch then Sign(a.epoch - b.epoch)
      else InParts(Upstream(a.version), Upstream(b.version), Text(Revision(a.version)), Text(Revision(b.version)))
    ensures CompareParsed(Unsplit(a), Unsplit(b)) == if a.epoch != b.epoch then Sign(a.epoch - b.epoch)
                                                     else Compare(a.version, b.version)
  {
    hide Compare, Upstream, Revision;
    NothingLeft();
  }

  lemma {:induction false} StripDecides(a: string, b: string)
    requires a != [] && b != [] && Ascii(a) && Ascii(b)
    ensures
      var u, v, r, t := Upstream(a), Upstream(b), Text(Revision(a)), Text(Revision(b));
      Compare(a, b) == InParts(u, v, r, t) <==> PartsAlike(u, v, r, t)
  {
    hide *;
    var u, v, r, t := Upstream(a), Upstream(b), Text(Revision(a)), Text(Revision(b));
    RevisionIs(a);
    RevisionIs(b);
    ShapeIs(r);
    ShapeIs(t);
    StripCompares(u, v, r, t);
    StripAscii(u, v);
    var (x, y) := Strip(u, v);
    StripEnds(u, v);
    LeftOfIs(u, v, x, y);
    EndOfIs(x, u);
    EndOfIs(y, v);
    InPartsIs(u, v, x, y, r, t);
    PartsAlikeIs(u, v, r, t);
    if x != [] && y != [] {
      BothLeft(x, y, r, t);
    } else if x == [] {
      RestOfUpstream(b, y);
      OneLeft(r, y, t);
      FitsNothing(t, x, r);
    } else {
      RestOfUpstream(a, x);
      OneLeft(t, x, r);
      assert [] + t == t;
      Mirrored(x, []);
      Mirrored(x + r, t);
      Mirrored(r, t);
      InPartsMirrored(x, [], r, t);
      FitsNothing(r, y, t);
    }
  }

  lemma {:induction false} InPartsIs(u: string, v: string, x: string, y: string, r: string, t: string)
    requires Compare(u, v) == Compare(x, y)
    ensures InParts(u, v, r, t) == InParts(x, y, r, t)
    ensures Compare(x, y) != 0 ==> InParts(x, y, r, t) == Compare(x, y)
  {
  }

  lemma {:induction false} InPartsMirrored(x: string, y: string, r: string, t: string)
    requires Compare(x, y) == -Compare(y, x) && Compare(r, t) == -Compare(t, r)
    ensures InParts(x, y, r, t) == -InParts(y, x, t, r)
  {
  }

  lemma {:induction false} PartsAlikeIs(u: string, v: string, r: string, t: string)
    ensures var (x, y) := Strip(u, v);
      PartsAlike(u, v, r, t) <==> (x != [] || Fits(r, y, t)) && (y != [] || Fits(t, x, r))
  {
  }

  lemma {:induction false} ShapeIs(r: string)
    requires RevisionShape(r)
    ensures Ascii(r) && !DigitFirst(r)
  {
  }

  /** On versions without a "-r" part, with the same upstream part, or with upstream parts of which each goes on
      where they first differ, the programs agree. */
  lemma {:induction false} UsuallyAlike(a: Version, b: Version)
    requires Usable(a) && Usable(b)
    requires
      || (Revision(a.version).None? && Revision(b.version).None?)
      || Upstream(a.version) == Upstream(b.version)
      || (var (x, y) := Strip(Upstream(a.version), Upstream(b.version)); x != [] && y != [])
    ensures CompareVersions(a, b) == CompareParsed(Unsplit(a), Unsplit(b))
  {
    ProgramsAgree(a, b);
    StripSame(Upstream(a.version));
  }

  lemma {:induction false} StripSame(u: string)
    ensures Strip(u, u) == ([], [])
    decreases |u|
  {
    if u != [] {
      StripSame(if Digit(u[0]) then AfterDigits(u) else u[1..]);
    }
  }

  lemma {:induction false} FitsNothing(r: string, left: string, other: string)
    requires left == []
    ensures Fits(r, left, other)
  {
  }

  /** What `-r...` looks like, if it is there. */
  ghost predicate RevisionShape(r: string)
  {
    Ascii(r) && (r != [] ==> |r| > 2 && r[0] == '-' && r[1] == 'r')
  }

  lemma {:induction false} RevisionIs(s: string)
    requires s != [] && Ascii(s)
    ensures Upstream(s) != [] && Upstream(s) + Text(Revision(s)) == s
    ensures Ascii(Upstream(s)) && RevisionShape(Text(Revision(s)))
  {
    CutIs(s, 1);
  }

  lemma {:induction false} CutIs(s: string, k: nat)
    requires k <= |s|
    ensures var c := RevisionAt(s, k);
      && (c < |s| ==> |s| - c > 2 && s[c] == '-' && s[c + 1] == 'r')
      && forall j :: k <= j < c && |s| - j > 2 && s[j] == '-' ==> s[j + 1] != 'r'
    decreases |s| - k
  {
    if k < |s| {
      CutIs(s, k + 1);
    }
  }

  /** Both programs: the smaller epoch comes first, then the smaller version or upstream part, then the smaller revision
      or "-r" part, a missing one being empty. */
  lemma {:induction false} ComparedInTurn(a: VersionRevision, b: VersionRevision, v: Version, w: Version)
    ensures a.epoch < b.epoch ==> CompareParsed(a, b) < 0 < CompareParsed(b, a)
    ensures a.epoch == b.epoch ==>
      var c := Compare(if a.version.Some? then a.version.value else "", if b.version.Some? then b.version.value else "");
      CompareParsed(a, b) ==
        if c != 0 then c
        else Compare(if a.revision.Some? then a.revision.value else "", if b.revision.Some? then b.revision.value else "")
    ensures v.epoch < w.epoch ==> CompareVersions(v, w) < 0 < CompareVersions(w, v)
    ensures v.epoch == w.epoch ==>
      var c := Compare(Upstream(v.version), Upstream(w.version));
      CompareVersions(v, w) ==
        if c != 0 then c
        else Compare(if Revision(v.version).Some? then Revision(v.version).value else "",
                     if Revision(w.version).Some? then Revision(w.version).value else "")
  {
    hide Compare, Upstream, Revision;
  }

  /** Where a version is split: before the first "-r" that is neither at its beginning nor at its end. */
  lemma {:induction false} SplitExactly(s: string)
    requires s != []
    ensures Upstream(s) != [] && s == Upstream(s) + if Revision(s).Some? then Revision(s).value else ""
    ensures Revision(s).None? <==> forall j :: 1 <= j < |s| - 2 && s[j] == '-' ==> s[j + 1] != 'r'
    ensures Revision(s).Some? ==>
      var k := |Upstream(s)|;
      1 <= k < |s| - 2 && s[k] == '-' && s[k + 1] == 'r' && forall j :: 1 <= j < k && s[j] == '-' ==> s[j + 1] != 'r'
  {
    CutIs(s, 1);
  }

  /** Stripping does not change what either program says. */
  lemma {:induction false} StripCompares(a: string, b: string, r: string, t: string)
    requires Ascii(a) && Ascii(b) && Ascii(r) && Ascii(t) && !DigitFirst(r) && !DigitFirst(t)
    ensures var (x, y) := Strip(a, b);
      Compare(a + r, b + t) == Compare(x + r, y + t) && Compare(a, b) == Compare(x, y)
    decreases |a| + |b|
  {
    if a == [] || b == [] {
    } else if Digit(a[0]) && Digit(b[0]) {
      if Number(Digits(a)) == Number(Digits(b)) {
        StripNumber(a, b, r, t);
        StripCompares(AfterDigits(a), AfterDigits(b), r, t);
      }
    } else if a[0] == b[0] {
      StripCharacter(a, b, r, t);
      StripCompares(a[1..], b[1..], r, t);
    }
  }

  lemma {:induction false} StripCharacter(a: string, b: string, r: string, t: string)
    requires Ascii(a) && a != [] && b != [] && a[0] == b[0] && !Digit(a[0])
    ensures Compare(a + r, b + t) == Compare(a[1..] + r, b[1..] + t) && Compare(a, b) == Compare(a[1..], b[1..])
  {
    var c := [a[0]];
    assert IsWord(c);
    hide Compare, IsWord, Ascii;
    assert a == c + a[1..] && b == c + b[1..];
    assert a + r == c + (a[1..] + r) && b + t == c + (b[1..] + t);
    SameWordBefore(c, a[1..], b[1..]);
    SameWordBefore(c, a[1..] + r, b[1..] + t);
  }

  lemma {:induction false} StripNumber(a: string, b: string, r: string, t: string)
    requires Ascii(a) && Ascii(b) && DigitFirst(a) && DigitFirst(b) && Number(Digits(a)) == Number(Digits(b))
    requires !DigitFirst(r) && !DigitFirst(t)
    ensures Compare(a + r, b + t) == Compare(AfterDigits(a) + r, AfterDigits(b) + t)
    ensures Compare(a, b) == Compare(AfterDigits(a), AfterDigits(b))
    ensures Ascii(AfterDigits(a)) && Ascii(AfterDigits(b)) && |AfterDigits(a)| < |a| && |AfterDigits(b)| < |b|
  {
    AsciiAfter(a, |Digits(a)|);
    AsciiAfter(b, |Digits(b)|);
    NumberFirst(a, r);
    NumberFirst(b, t);
    NumberFirst(a, []);
    NumberFirst(b, []);
    assert a + [] == a && b + [] == b && AfterDigits(a) + [] == AfterDigits(a) && AfterDigits(b) + [] == AfterDigits(b);
    hide Compare, Digits, Number, AfterDigits, Ascii;
    NumbersFirst(a + r, b + t);
    NumbersFirst(a, b);
  }

  /** Digits in front are the number, also with something behind that does not begin with a digit. */
  lemma {:induction false} NumberFirst(a: string, r: string)
    requires DigitFirst(a) && !DigitFirst(r)
    ensures DigitFirst(a + r) && !WordFirst(a + r)
    ensures Digits(a + r) == Digits(a) && AfterDigits(a + r) == AfterDigits(a) + r
  {
    var d, rest := Digits(a), AfterDigits(a);
    DigitsIs(a);
    DigitsAreDigits(a);
    assert a == d + rest && a + r == d + (rest + r);
    assert !DigitFirst(rest + r);
    hide Digits;
    DigitsPrefix(d, rest + r);
    DigitsHead(rest + r);
    assert d + [] == d;
  }

  lemma {:induction false} NumbersFirst(a: string, b: string)
    requires !WordFirst(a) && !WordFirst(b)
    ensures Compare(a, b) == CompareNumbers(a, b)
    ensures Compare(a, b) ==
      if Number(Digits(a)) != Number(Digits(b)) then Sign(Number(Digits(a)) - Number(Digits(b)))
      else Compare(AfterDigits(a), AfterDigits(b))
  {
    hide Compare, Digits, Number, AfterDigits, WordFirst;
    EmptyIsWord();
    assert [] + a == a && [] + b == b;
    SameWords([], a, b);
  }

  lemma {:induction false} StripAscii(a: string, b: string)
    requires Ascii(a) && Ascii(b)
    ensures Ascii(Strip(a, b).0) && Ascii(Strip(a, b).1)
    decreases |a| + |b|
  {
    if a != [] && b != [] {
      if Digit(a[0]) && Digit(b[0]) {
        AsciiAfter(a, |Digits(a)|);
        AsciiAfter(b, |Digits(b)|);
        StripAscii(AfterDigits(a), AfterDigits(b));
      } else {
        StripAscii(a[1..], b[1..]);
      }
    }
  }

  /** Both go on, and differ right there. */
  ghost predicate Apart(x: string, y: string)
  {
    && x != [] && y != []
    && if Digit(x[0]) && Digit(y[0]) then Number(Digits(x)) != Number(Digits(y)) else x[0] != y[0]
  }

  /** What is left is an end of the part it is left of, and a proper one if the other part is used up. */
  ghost predicate EndOf(x: string, s: string)
  {
    |x| <= |s| && s[|s| - |x|..] == x
  }

  ghost predicate LeftOf(a: string, b: string, x: string, y: string)
  {
    && EndOf(x, a) && EndOf(y, b)
    && (x == [] && a != [] && b != [] ==> |y| < |b|)
    && (y == [] && a != [] && b != [] ==> |x| < |a|)
    && (x != [] && y != [] ==> Apart(x, y))
  }

  lemma {:induction false} EndOfIs(x: string, s: string)
    ensures EndOf(x, s) <==> |x| <= |s| && s[|s| - |x|..] == x
  {
  }

  lemma {:induction false} LeftOfIs(a: string, b: string, x: string, y: string)
    ensures LeftOf(a, b, x, y) <==>
      && EndOf(x, a) && EndOf(y, b)
      && (x == [] && a != [] && b != [] ==> |y| < |b|)
      && (y == [] && a != [] && b != [] ==> |x| < |a|)
      && (x != [] && y != [] ==> Apart(x, y))
  {
  }

  lemma {:induction false} StripEnds(a: string, b: string)
    ensures LeftOf(a, b, Strip(a, b).0, Strip(a, b).1)
    decreases |a| + |b|
  {
    hide *;
    StripIs(a, b);
    if a != [] && b != [] {
      if Digit(a[0]) && Digit(b[0]) {
        if Number(Digits(a)) == Number(Digits(b)) {
          NumbersGo(a);
          NumbersGo(b);
          StripEnds(AfterDigits(a), AfterDigits(b));
          LeftFurther(a, b, |Digits(a)|, |Digits(b)|, Strip(a, b).0, Strip(a, b).1);
        }
      } else if a[0] == b[0] {
        StripEnds(a[1..], b[1..]);
        LeftFurther(a, b, 1, 1, Strip(a, b).0, Strip(a, b).1);
      }
    }
  }

  lemma {:induction false} StripIs(a: string, b: string)
    ensures a == [] || b == [] ==> Strip(a, b) == (a, b) && LeftOf(a, b, a, b)
    ensures a != [] && b != [] ==>
      if Digit(a[0]) && Digit(b[0]) then
        if Number(Digits(a)) == Number(Digits(b)) then Strip(a, b) == Strip(AfterDigits(a), AfterDigits(b))
        else Strip(a, b) == (a, b) && LeftOf(a, b, a, b)
      else if a[0] == b[0] then Strip(a, b) == Strip(a[1..], b[1..])
      else Strip(a, b) == (a, b) && LeftOf(a, b, a, b)
  {
    hide Digits, Number, AfterDigits;
  }

  lemma {:induction false} NumbersGo(s: string)
    requires s != [] && Digit(s[0])
    ensures 0 < |Digits(s)| <= |s| && AfterDigits(s) == s[|Digits(s)|..]
  {
  }

  lemma {:induction false} LeftFurther(a: string, b: string, m: nat, n: nat, x: string, y: string)
    requires 0 < m <= |a| && 0 < n <= |b| && LeftOf(a[m..], b[n..], x, y)
    ensures LeftOf(a, b, x, y)
  {
    hide *;
    LeftOfIs(a[m..], b[n..], x, y);
    LeftOfIs(a, b, x, y);
    EndOfEnd(x, a, m);
    EndOfEnd(y, b, n);
  }

  lemma {:induction false} EndOfEnd(x: string, s: string, m: nat)
    requires 0 < m <= |s| && EndOf(x, s[m..])
    ensures EndOf(x, s) && |x| < |s|
  {
    assert s[m..][|s| - m - |x|..] == s[|s| - |x|..];
  }

  /** If both parts go on where they differ, that decides, for both programs. */
  lemma {:induction false} BothLeft(x: string, y: string, r: string, t: string)
    requires Ascii(x) && Ascii(y) && Ascii(r) && Ascii(t) && !DigitFirst(r) && !DigitFirst(t)
    requires Apart(x, y)
    ensures Compare(x + r, y + t) == Compare(x, y) != 0
  {
    assert HeadOrder(x + r) == HeadOrder(x) && HeadOrder(y + t) == HeadOrder(y);
    if Digit(x[0]) && Digit(y[0]) {
      NumberFirst(x, r);
      NumberFirst(y, t);
      hide Compare, Digits, Number, AfterDigits, Ascii;
      NumbersFirst(x, y);
      NumbersFirst(x + r, y + t);
    } else {
      HeadsDiffer(x[0], y[0]);
      assert Ascii(x + r) && Ascii(y + t);
      hide Compare, HeadOrder, Ascii;
      OrderDecides(x, y);
      OrderDecides(x + r, y + t);
    }
  }

  lemma {:induction false} HeadsDiffer(c: char, d: char)
    requires 0 < c as int < 128 && 0 < d as int < 128 && c != d && !(Digit(c) && Digit(d))
    ensures Order(c) != Order(d)
  {
  }

  lemma {:induction false} OrderDecides(x: string, y: string)
    requires Ascii(x) && Ascii(y) && HeadOrder(x) != HeadOrder(y)
    ensures Compare(x, y) == Sign(HeadOrder(x) - HeadOrder(y)) != 0
  {
    hide Compare, HeadOrder, Ascii;
    EmptyIsWord();
    assert [] + x == x && [] + y == y;
    WordsDiffer([], x, y);
  }

  lemma {:induction false} HeadIs(s: string)
    ensures s == [] ==> HeadOrder(s) == 0
    ensures s != [] ==> HeadOrder(s) == Order(s[0])
    ensures DigitFirst(s) ==> HeadOrder(s) == 0
    ensures WordFirst(s) ==> HeadOrder(s) != 0
  {
  }

  /** A number against the end of the string. */
  lemma {:induction false} NumberAgainstEnd(y: string)
    requires DigitFirst(y)
    ensures Compare([], y) == if Number(Digits(y)) != 0 then -1 else Compare([], AfterDigits(y))
    ensures Compare(y, []) == if Number(Digits(y)) != 0 then 1 else Compare(AfterDigits(y), [])
    ensures AfterDigits(y) == [] || WordFirst(AfterDigits(y))
  {
    DigitsIs(y);
    DigitsNone();
    assert AfterDigits(y) == [] || WordFirst(AfterDigits(y));
    hide Compare, Digits, Number, AfterDigits;
    NumbersFirst([], y);
    NumbersFirst(y, []);
  }

  lemma {:induction false} BelowEndIs(s: string)
    requires Ascii(s)
    ensures Compare(s, []) == -1 <==> BelowEnd(s)
  {
    NothingLeft();
    AsciiAfter(s, |Digits(s)|);
    if DigitFirst(s) {
      NumberAgainstEnd(s);
    }
    hide Compare, Digits, Number;
    HeadIs(s);
    HeadIs([]);
    HeadIs(AfterDigits(s));
    if WordFirst(s) {
      OrderDecides(s, []);
    } else if DigitFirst(s) && AfterDigits(s) != [] {
      OrderDecides(AfterDigits(s), []);
    }
  }

  /** The programs agree then exactly if what is left fits. */
  lemma {:induction false} OneLeft(r: string, left: string, other: string)
    requires RevisionShape(r) && RevisionShape(other) && Ascii(left) && RestOk(left, other)
    ensures Compare([] + r, left + other) == InParts([], left, r, other) <==> Fits(r, left, other)
  {
    hide *;
    assert [] + r == r && [] + other == other;
    if left == [] {
      NothingAtAll(r, other);
    } else if r == [] {
      NoRevision(left, other);
      FitsAnyway(left, other);
    } else if Digit(left[0]) {
      FirstIs(left);
      NumberLeft(r, left, other);
    } else if left[0] == '-' {
      HyphenLeft(r, left, other);
    } else {
      FirstIs(left);
      WordLeft(r, left, other);
    }
  }

  lemma {:induction false} FirstIs(left: string)
    requires left != []
    ensures DigitFirst(left) <==> Digit(left[0])
    ensures WordFirst(left) <==> !Digit(left[0])
  {
  }

  lemma {:induction false} NothingAtAll(r: string, other: string)
    ensures InParts([], [], r, other) == Compare(r, other) && Fits(r, [], other)
  {
    NothingLeft();
  }

  lemma {:induction false} FitsAnyway(left: string, other: string)
    ensures Fits([], left, other)
  {
  }

  lemma {:induction false} WordLeft(r: string, left: string, other: string)
    requires RevisionShape(r) && r != [] && RevisionShape(other) && Ascii(left) && WordFirst(left) && left[0] != '-'
    ensures Compare(r, left + other) == InParts([], left, r, other) <==> Fits(r, left, other)
  {
    hide Compare;
    assert HeadOrder(left + other) == HeadOrder(left) && HeadOrder(r) == Order('-');
    HeadsDiffer('-', left[0]);
    OrderDecides(r, left + other);
    OrderDecides([], left);
  }

  lemma {:induction false} NoRevision(left: string, other: string)
    requires left != [] && Ascii(left) && RevisionShape(other)
    ensures Compare([], left + other) == InParts([], left, [], other)
  {
    hide *;
    InPartsIs([], left, [], left, [], other);
    FirstIs(left);
    ShapeIs(other);
    AsciiJoin(left, other);
    if Digit(left[0]) {
      var y := AfterDigits(left);
      NumberFirst(left, other);
      NumberAgainstEnd(left);
      NumberAgainstEnd(left + other);
      AfterAscii(left);
      if y != [] {
        HeadKept(y, other);
        AsciiJoin(y, other);
        OrderDecides([], y);
        OrderDecides([], y + other);
      } else {
        assert y + other == other;
        NothingAtAll([], other);
      }
      SameInParts([], left, [], y, [], other);
    } else {
      HeadKept(left, other);
      OrderDecides([], left);
      OrderDecides([], left + other);
    }
  }

  lemma {:induction false} SameInParts(u: string, v: string, x: string, y: string, r: string, t: string)
    ensures Compare(u, v) == Compare(x, y) ==> InParts(u, v, r, t) == InParts(x, y, r, t)
    ensures Compare(u, v) != 0 ==> InParts(u, v, r, t) == Compare(u, v)
  {
  }

  lemma {:induction false} AsciiJoin(a: string, b: string)
    requires Ascii(a) && Ascii(b)
    ensures Ascii(a + b)
  {
  }

  lemma {:induction false} AfterAscii(a: string)
    requires Ascii(a)
    ensures Ascii(AfterDigits(a))
  {
    AsciiAfter(a, |Digits(a)|);
  }

  lemma {:induction false} HeadKept(a: string, b: string)
    requires WordFirst(a) && Ascii(a)
    ensures HeadOrder(a + b) == HeadOrder(a) != HeadOrder([])
    ensures Ascii([])
  {
  }

  lemma {:induction false} NumberLeft(r: string, left: string, other: string)
    requires RevisionShape(r) && r != [] && RevisionShape(other) && Ascii(left) && DigitFirst(left)
    ensures Compare(r, left + other) == InParts([], left, r, other) <==> Fits(r, left, other)
  {
    NothingLeft();
    NumberAgainstEnd(left);
    AsciiAfter(left, |Digits(left)|);
    CompareIsPreorder(r, other, r);
    var y := AfterDigits(left);
    assert HeadOrder(left + other) == 0 && HeadOrder(r) == Order('-');
    hide Compare, Digits, Number, AfterDigits;
    OrderDecides(r, left + other);
    if y != [] {
      HeadIs(y);
      OrderDecides([], y);
    }
  }

  lemma {:induction false} HyphenLeft(r: string, left: string, other: string)
    requires RevisionShape(r) && r != [] && RevisionShape(other) && Ascii(left)
    requires left != [] && left[0] == '-' && RestOk(left, other)
    ensures Compare(r, left + other) == InParts([], left, r, other) <==> Fits(r, left, other)
  {
    var rest := left[1..] + other;
    HyphenFacts(r, left, other);
    FitsHyphen(r, left, other);
    hide *;
    BelowEndIs(r[2..]);
    NothingLeft();
    Mirrored(r[2..], []);
    OrderDecides([], left);
    InPartsIs([], left, [], left, r, other);
    SameWordBefore("-", r[1..], rest);
    if HeadOrder(rest) != Order('r') {
      OrderDecides(r[1..], rest);
      SignIs(HeadOrder(r[1..]) - HeadOrder(rest));
    } else {
      assert rest == "r" + [];
      SameWordBefore("r", r[2..], []);
    }
  }

  lemma {:induction false} HyphenFacts(r: string, left: string, other: string)
    requires RevisionShape(r) && r != [] && RevisionShape(other) && Ascii(left)
    requires left != [] && left[0] == '-' && RestOk(left, other)
    ensures |r| > 2 && Ascii(r[1..]) && Ascii(r[2..]) && IsWord("-") && IsWord("r")
    ensures var rest := left[1..] + other;
      && left + other == "-" + rest && r == "-" + r[1..] && r[1..] == "r" + r[2..] && Ascii(rest)
      && HeadOrder(left) == Order('-') && HeadOrder(r[1..]) == Order('r') && Sign(HeadOrder([]) - HeadOrder(left)) == -1
      && (HeadOrder(rest) == Order('r') <==> rest == "r") && HeadOrder([]) != HeadOrder(left)
  {
    AsciiAfter(left, 1);
    AsciiAfter(r, 1);
    AsciiAfter(r, 2);
    LettersAreWords();
    AsciiJoin(left[1..], other);
    var rest := left[1..] + other;
    assert left + other == "-" + rest && r == "-" + r[1..] && r[1..] == "r" + r[2..];
    if HeadOrder(rest) == Order('r') {
      OnlyR(rest);
    }
    hide Ascii;
  }

  lemma {:induction false} LettersAreWords()
    ensures IsWord("-") && IsWord("r") && Order('-') == 301 && Order('r') == 114
  {
  }

  lemma {:induction false} FitsHyphen(r: string, left: string, other: string)
    requires r != [] && left != [] && left[0] == '-'
    ensures Fits(r, left, other) <==>
      var rest := left[1..] + other;
      HeadOrder(rest) > Order('r') || (rest == "r" && |r| > 2 && BelowEnd(r[2..]))
  {
    hide HeadOrder, BelowEnd, Compare;
  }

  lemma {:induction false} OnlyR(s: string)
    requires Ascii(s) && HeadOrder(s) == Order('r')
    ensures s != [] && s[0] == 'r'
  {
  }

  /** What follows a hyphen that is left is no "-r" part, or it would have been split off: it is not "r..." but for
      "r" itself. */
  ghost predicate RestOk(left: string, other: string)
  {
    left != [] && left[0] == '-' && left[1..] + other != [] && (left[1..] + other)[0] == 'r' ==> left[1..] + other == "r"
  }

  lemma {:induction false} RestOfUpstream(s: string, left: string)
    requires s != [] && |left| < |Upstream(s)| && Upstream(s)[|Upstream(s)| - |left|..] == left
    ensures RestOk(left, Text(Revision(s)))
  {
    CutIs(s, 1);
    var u, t := Upstream(s), Text(Revision(s));
    var k := |u| - |left|;
    assert s == u + t;
    if left != [] && left[0] == '-' && left[1..] + t != [] && (left[1..] + t)[0] == 'r' {
      assert left[1..] + t == s[k + 1..];
      assert s[k] == u[k] == left[0] && s[k + 1] == s[k + 1..][0];
      assert s[k + 1..] == ['r'];
    }
  }

  lemma {:induction false} Mirrored(x: string, y: string)
    requires Ascii(x) && Ascii(y)
    ensures Compare(x, y) == -Compare(y, x)
  {
    CompareIsPreorder(x, y, x);
  }

  lemma {:induction false} SameWordBefore(p: string, a: string, b: string)
    requires IsWord(p)
    ensures Compare(p + a, p + b) == Compare(a, b)
  {
    hide Tokens, CompareTokens, CompareWords, First, Rest, IsWord;
    TokensBefore(p, a);
    TokensBefore(p, b);
    FirstWord(a);
    FirstWord(b);
    SameBeginning(p, Word(a), Word(b));
    CompareTokensStep(Tokens(p + a), Tokens(p + b));
    CompareTokensStep(Tokens(a), Tokens(b));
  }

  lemma {:induction false} TokensBefore(p: string, a: string)
    requires IsWord(p)
    ensures First(Tokens(p + a)) == Token(p + Word(a), First(Tokens(a)).number)
    ensures Rest(Tokens(p + a)) == Rest(Tokens(a))
  {
    hide Tokens, Digits, Number, IsWord, AfterDigits, Word;
    WordPrefix(p, a);
    TokensStep(p + a);
    TokensStep(a);
    TokensStep([]);
    DigitsNone();
    WordNone([]);
    assert AfterWord(p + a) == AfterWord(a);
    assert p + [] == p;
  }

  lemma {:induction false} SameBeginning(p: string, u: string, v: string)
    ensures CompareWords(p + u, p + v) == CompareWords(u, v)
    decreases |p|
  {
    if p == [] {
      assert p + u == u && p + v == v;
    } else {
      SameBeginning(p[1..], u, v);
      assert (p + u)[1..] == p[1..] + u && (p + v)[1..] == p[1..] + v;
    }
  }

  /** They do not agree on all versions: the Python program takes "1-r2" for older than "1a", the C program for
      newer. */
  lemma {:induction false} ProgramsDisagree()
    ensures CompareVersions(Version(0, "1-r2"), Version(0, "1a")) == -1
    ensures CompareParsed(Unsplit(Version(0, "1-r2")), Unsplit(Version(0, "1a"))) == 1
  {
    SplitExample();
    hide Compare, Upstream, Revision, HeadOrder;
    OneThen("", "a");
    OneThen("-r2", "a");
    assert "1" + "" == "1" && "1" + "-r2" == "1-r2" && "1" + "a" == "1a";
    HeadsOf();
    WordsDiffer("", "", "a");
    WordsDiffer("", "-r2", "a");
    assert "" + "" == "" && "" + "a" == "a" && "" + "-r2" == "-r2";
  }

  lemma {:induction false} HeadsOf()
    ensures HeadOrder("") == 0 && HeadOrder("a") == 97 && HeadOrder("-r2") == 301
  {
  }

  lemma {:induction false} SplitExample()
    ensures Upstream("1-r2") == "1" && Revision("1-r2") == Some("-r2")
    ensures Upstream("1a") == "1a" && Revision("1a") == None
  {
    assert RevisionAt("1-r2", 1) == 1;
    assert RevisionAt("1a", 2) == 2;
    assert RevisionAt("1a", 1) == 2;
  }

  lemma {:induction false} OneThen(a: string, b: string)
    requires Ascii(a) && Ascii(b) && !DigitFirst(a) && !DigitFirst(b)
    ensures Compare("1" + a, "1" + b) == Compare(a, b)
  {
    hide Compare, CompareNumbers;
    EmptyIsWord();
    assert "" + ("1" + a) == "1" + a && "" + ("1" + b) == "1" + b;
    SameWords("", "1" + a, "1" + b);
    NumbersRead("1", a, "1", b);
    assert FirstDiff("1", "1") == 0;
  }
}
