/** The comparison-operator rewrite of the user list query: the serialised filter
    goes through `replace(/\b(gte|lte|gt|lt)\b/g, m => '$' + m)`, so that
    `{"price":{"gte":"500"}}` becomes `{"price":{"$gte":"500"}}`.

    `Scan` follows the regular expression engine: at each position it tries a word
    boundary, then the four alternatives in order, each followed by a word
    boundary, and on a match resumes after it. `TokenwiseRewrite` is an independent
    reading: cut the text into maximal word tokens and single other characters,
    and put `$` before every token that is exactly one of the four operators.
    `RewriteOperators` states that the two agree on every string. */
module OperatorRewrite {

  /** The characters `\b` and `\w` count as word characters: ASCII letters, digits
      and the underscore. */
  predicate IsWordChar(c: char) {
    ('a' <= c <= 'z') || ('A' <= c <= 'Z') || ('0' <= c <= '9') || c == '_'
  }

  const Operators: set<string> := {"gte", "lte", "gt", "lt"}

  // ---------------------------------------------------------------------------
  // The regular expression scan

  /** `s` begins with a word character. */
  predicate StartsWord(s: string) {
    |s| > 0 && IsWordChar(s[0])
  }

  /** `\b` between a character (a word character or not) and the text after it. */
  predicate Boundary(afterWord: bool, rest: string) {
    afterWord != StartsWord(rest)
  }

  /** One alternative `lit` of the group, followed by the closing `\b`, matches at
      the front of `s`. */
  predicate AlternativeAt(s: string, lit: string)
    requires |lit| > 0
  {
    |lit| <= |s| && s[..|lit|] == lit && Boundary(IsWordChar(lit[|lit| - 1]), s[|lit|..])
  }

  /** The length of the match of `\b(gte|lte|gt|lt)\b` at the front of `s`, or 0
      when there is none, given whether the character before it is a word
      character; the alternatives are tried in the order written. */
  function MatchLength(afterWord: bool, s: string): (n: nat)
    ensures n <= |s|
  {
    if !Boundary(afterWord, s) then 0
    else if AlternativeAt(s, "gte") then 3
    else if AlternativeAt(s, "lte") then 3
    else if AlternativeAt(s, "gt") then 2
    else if AlternativeAt(s, "lt") then 2
    else 0
  }

  /** The output of the global replace for the text `s` that remains to be scanned,
      given whether the character before it is a word character: on a match the
      match is emitted behind a `$` and the scan resumes after it, otherwise one
      character is copied and the scan moves on by one. Every character of `s` is
      kept and each match, at least two characters long, gains one `$`, so the
      output is at most half as long again. */
  function Scan(afterWord: bool, s: string): (r: string)
    ensures |s| <= |r| <= |s| + |s| / 2
    decreases |s|
  {
    if s == [] then []
    else
      var n := MatchLength(afterWord, s);
      if n > 0 then "$" + s[..n] + Scan(IsWordChar(s[n - 1]), s[n..])
      else [s[0]] + Scan(IsWordChar(s[0]), s[1..])
  }

  /** `text.replace(/\b(gte|lte|gt|lt)\b/g, (match) => `$${match}`)`: the same as
      rewriting each whole word token on its own (`TokenwiseRewrite`). */
  function RewriteOperators(s: string): (r: string)
    ensures r == TokenwiseRewrite(s)
    ensures |s| <= |r| <= |s| + |s| / 2
  {
    ScanTokenStart(false, s);
    Scan(false, s)
  }

  // ---------------------------------------------------------------------------
  // The token-wise reference

  /** The length of the run of word characters at the front of `s`. */
  function WordRunLength(s: string): (n: nat)
    ensures n <= |s|
    ensures forall k :: 0 <= k < n ==> IsWordChar(s[k])
    ensures n < |s| ==> !IsWordChar(s[n])
    ensures |s| > 0 && IsWordChar(s[0]) ==> n >= 1
  {
    if s == [] || !IsWordChar(s[0]) then 0 else 1 + WordRunLength(s[1..])
  }

  /** What becomes of one word token. */
  function RewriteToken(token: string): string {
    if token in Operators then "$" + token else token
  }

  /** Every maximal word token equal to an operator gets a `$` in front; every other
      character is copied. */
  function TokenwiseRewrite(s: string): string
    decreases |s|
  {
    if s == [] then []
    else if !IsWordChar(s[0]) then [s[0]] + TokenwiseRewrite(s[1..])
    else
      var n := WordRunLength(s);
      RewriteToken(s[..n]) + TokenwiseRewrite(s[n..])
  }

  predicate WordBefore(s: string, i: nat)
    requires i <= |s|
  {
    i > 0 && IsWordChar(s[i - 1])
  }

  predicate WordAt(s: string, i: nat)
    requires i <= |s|
  {
    i < |s| && IsWordChar(s[i])
  }

  /** `s[i..j]` is a maximal run of word characters. */
  predicate IsToken(s: string, i: nat, j: nat) {
    && i < j <= |s|
    && !WordBefore(s, i)
    && !WordAt(s, j)
    && forall k :: i <= k < j ==> IsWordChar(s[k])
  }

  ghost predicate NoOperatorToken(s: string) {
    forall i: nat, j: nat :: IsToken(s, i, j) ==> s[i..j] !in Operators
  }

  // ---------------------------------------------------------------------------
  // The scan agrees with the reference

  lemma {:induction false} NoMatchAtOtherChar(afterWord: bool, s: string)
    requires |s| > 0 && !IsWordChar(s[0])
    ensures MatchLength(afterWord, s) == 0
  {
    forall lit | lit in Operators && |lit| <= |s|
      ensures s[..|lit|] != lit
    {
      assert s[..|lit|][0] == s[0];
    }
  }

  /** At the first character of a word token, an alternative matches exactly when
      the whole token is that alternative. */
  lemma {:induction false} AlternativeIffToken(s: string, n: nat, lit: string)
    requires 1 <= n <= |s|
    requires forall k :: 0 <= k < n ==> IsWordChar(s[k])
    requires !StartsWord(s[n..])
    requires |lit| >= 1 && forall k :: 0 <= k < |lit| ==> IsWordChar(lit[k])
    ensures AlternativeAt(s, lit) <==> s[..n] == lit
  {
    var len := |lit|;
    if len <= |s| && s[..len] == lit {
      assert forall k :: 0 <= k < len ==> s[k] == lit[k];
      assert n < |s| ==> s[n..][0] == s[n];
      assert len < |s| ==> s[len..][0] == s[len];
    }
  }

  lemma {:induction false} MatchAtWordStart(s: string)
    requires StartsWord(s)
    ensures MatchLength(false, s) == if s[..WordRunLength(s)] in Operators then WordRunLength(s) else 0
  {
    var n := WordRunLength(s);
    assert n < |s| ==> s[n..][0] == s[n];
    AlternativeIffToken(s, n, "gte");
    AlternativeIffToken(s, n, "lte");
    AlternativeIffToken(s, n, "gt");
    AlternativeIffToken(s, n, "lt");
  }

  /** Inside a word there is no boundary, so the scan copies the rest of the word. */
  lemma {:induction false} CopyInsideWord(s: string, e: nat)
    requires e <= |s|
    requires forall k :: 0 <= k < e ==> IsWordChar(s[k])
    ensures Scan(true, s) == s[..e] + Scan(true, s[e..])
  {
    if e > 0 {
      ScanCopies(true, s);
      assert s[1..][..e - 1] == s[1..e];
      assert s[1..][e - 1..] == s[e..];
      CopyInsideWord(s[1..], e - 1);
      assert s[..e] == [s[0]] + s[1..e];
      Associative([s[0]], s[1..e], Scan(true, s[e..]));
    }
  }

  /** One step of the scan at a position where nothing matches. */
  lemma ScanCopies(afterWord: bool, s: string)
    requires s != [] && MatchLength(afterWord, s) == 0
    ensures Scan(afterWord, s) == [s[0]] + Scan(IsWordChar(s[0]), s[1..])
  {
  }

  /** One step of the scan at a position where an alternative matches. */
  lemma ScanPrefixes(afterWord: bool, s: string, n: nat)
    requires s != [] && MatchLength(afterWord, s) == n > 0
    ensures Scan(afterWord, s) == "$" + s[..n] + Scan(IsWordChar(s[n - 1]), s[n..])
  {
  }

  /** One step of the token-wise rewrite at a word token. */
  lemma TokenwiseWordStep(s: string)
    requires StartsWord(s)
    ensures TokenwiseRewrite(s) == RewriteToken(s[..WordRunLength(s)]) + TokenwiseRewrite(s[WordRunLength(s)..])
  {
  }

  /** A word token that is an operator: the scan emits it behind a `$`. */
  lemma {:induction false} ScanOperatorWord(s: string)
    requires StartsWord(s) && s[..WordRunLength(s)] in Operators
    ensures Scan(false, s) == TokenwiseRewrite(s)
    decreases |s|, 0
  {
    var n := WordRunLength(s);
    MatchAtWordStart(s);
    ScanTokenStart(true, s[n..]);
    TokenwiseWordStep(s);
    ScanPrefixes(false, s, n);
  }

  lemma AfterFirst(s: string, n: nat)
    requires 1 <= n <= |s|
    ensures s[1..][n - 1..] == s[n..]
    ensures [s[0]] + s[1..][..n - 1] == s[..n]
  {
  }

  /** Any other word token: the scan copies it character by character. */
  lemma {:induction false} ScanOtherWord(s: string)
    requires StartsWord(s) && s[..WordRunLength(s)] !in Operators
    ensures Scan(false, s) == TokenwiseRewrite(s)
    decreases |s|, 0
  {
    var n := WordRunLength(s);
    var rest := s[n..];
    MatchAtWordStart(s);
    ScanTokenStart(true, rest);
    TokenwiseWordStep(s);
    ScanCopies(false, s);
    var t := s[1..];
    CopyInsideWord(t, n - 1);
    AfterFirst(s, n);
    Associative([s[0]], t[..n - 1], Scan(true, rest));
  }

  /** Where the text does not continue a word, the scan and the token-wise rewrite
      agree. */
  lemma {:induction false} ScanTokenStart(afterWord: bool, s: string)
    requires !afterWord || !StartsWord(s)
    ensures Scan(afterWord, s) == TokenwiseRewrite(s)
    decreases |s|, 1
  {
    if s != [] {
      if IsWordChar(s[0]) {
        if s[..WordRunLength(s)] in Operators {
          ScanOperatorWord(s);
        } else {
          ScanOtherWord(s);
        }
      } else {
        NoMatchAtOtherChar(afterWord, s);
        ScanTokenStart(false, s[1..]);
      }
    }
  }

  // ---------------------------------------------------------------------------
  // Properties of the rewrite

  /** `a` and `b` meet at a token boundary: at least one side of the seam is not a
      word character. */
  predicate Separated(a: string, b: string) {
    a == [] || b == [] || !IsWordChar(a[|a| - 1]) || !IsWordChar(b[0])
  }

  lemma {:induction false} WordRunLengthAppend(a: string, b: string)
    requires a != [] && Separated(a, b)
    ensures WordRunLength(a + b) == WordRunLength(a)
  {
    if IsWordChar(a[0]) {
      assert (a + b)[1..] == a[1..] + b;
      if a[1..] != [] {
        WordRunLengthAppend(a[1..], b);
      }
    }
  }

  lemma Associative(x: string, y: string, z: string)
    ensures (x + y) + z == x + (y + z)
  {
  }

  /** One step of the token-wise rewrite at a character that is not a word character. */
  lemma TokenwiseOtherStep(s: string)
    requires s != [] && !IsWordChar(s[0])
    ensures TokenwiseRewrite(s) == [s[0]] + TokenwiseRewrite(s[1..])
  {
  }

  lemma {:induction false} TokenwiseAppendOther(a: string, b: string)
    requires a != [] && !IsWordChar(a[0]) && Separated(a, b)
    ensures TokenwiseRewrite(a + b) == TokenwiseRewrite(a) + TokenwiseRewrite(b)
    decreases |a|, 0
  {
    var ab := a + b;
    assert ab[0] == a[0];
    assert ab[1..] == a[1..] + b;
    TokenwiseOtherStep(a);
    TokenwiseOtherStep(ab);
    TokenwiseAppend(a[1..], b);
    Associative([a[0]], TokenwiseRewrite(a[1..]), TokenwiseRewrite(b));
  }

  lemma {:induction false} TokenwiseAppendWord(a: string, b: string)
    requires StartsWord(a) && Separated(a, b)
    ensures TokenwiseRewrite(a + b) == TokenwiseRewrite(a) + TokenwiseRewrite(b)
    decreases |a|, 0
  {
    var ab := a + b;
    var n := WordRunLength(a);
    WordRunLengthAppend(a, b);
    assert ab[0] == a[0];
    assert ab[..n] == a[..n];
    assert ab[n..] == a[n..] + b;
    TokenwiseWordStep(a);
    TokenwiseWordStep(ab);
    TokenwiseAppend(a[n..], b);
    Associative(RewriteToken(a[..n]), TokenwiseRewrite(a[n..]), TokenwiseRewrite(b));
  }

  /** The rewrite works token by token, so it distributes over a concatenation whose
      seam is a token boundary. */
  lemma {:induction false} TokenwiseAppend(a: string, b: string)
    requires Separated(a, b)
    ensures TokenwiseRewrite(a + b) == TokenwiseRewrite(a) + TokenwiseRewrite(b)
    decreases |a|, 1
  {
    if a == [] {
      assert a + b == b;
    } else if IsWordChar(a[0]) {
      TokenwiseAppendWord(a, b);
    } else {
      TokenwiseAppendOther(a, b);
    }
  }

  lemma {:induction false} WholeWord(w: string)
    requires |w| >= 1 && forall k :: 0 <= k < |w| ==> IsWordChar(w[k])
    ensures WordRunLength(w) == |w|
    ensures TokenwiseRewrite(w) == RewriteToken(w)
  {
    var n := WordRunLength(w);
    assert w[..n] == w;
    assert w[n..] == [];
  }

  lemma {:induction false} TokenwiseAroundWord(x: string, w: string, y: string)
    requires |w| >= 1 && forall k :: 0 <= k < |w| ==> IsWordChar(w[k])
    requires x == [] || !IsWordChar(x[|x| - 1])
    requires y == [] || !IsWordChar(y[0])
    ensures TokenwiseRewrite(x + w + y) == TokenwiseRewrite(x) + RewriteToken(w) + TokenwiseRewrite(y)
  {
    WholeWord(w);
    TokenwiseAppend(w, y);
    Associative(x, w, y);
    TokenwiseAppend(x, w + y);
    Associative(TokenwiseRewrite(x), RewriteToken(w), TokenwiseRewrite(y));
  }

  /** An operator standing as a token of its own gets a `$` in front, wherever it
      occurs: as a key, as a value or anywhere else in the text. */
  lemma {:induction false} OperatorTokenPrefixed(x: string, op: string, y: string)
    requires op in Operators
    requires x == [] || !IsWordChar(x[|x| - 1])
    requires y == [] || !IsWordChar(y[0])
    ensures RewriteOperators(x + op + y) == RewriteOperators(x) + "$" + op + RewriteOperators(y)
  {
    assert forall k :: 0 <= k < |op| ==> IsWordChar(op[k]);
    TokenwiseAroundWord(x, op, y);
    Associative(TokenwiseRewrite(x), "$", op);
  }

  /** A word token that is not exactly an operator (`gtex`, `price_gt`, `lt2`) is
      copied unchanged. */
  lemma {:induction false} OtherWordKept(x: string, w: string, y: string)
    requires |w| >= 1 && forall k :: 0 <= k < |w| ==> IsWordChar(w[k])
    requires w !in Operators
    requires x == [] || !IsWordChar(x[|x| - 1])
    requires y == [] || !IsWordChar(y[0])
    ensures RewriteOperators(x + w + y) == RewriteOperators(x) + w + RewriteOperators(y)
  {
    TokenwiseAroundWord(x, w, y);
  }

  lemma {:induction false} ShiftTokenDown(s: string, m: nat, i: nat, j: nat)
    requires IsToken(s, i, j) && m <= i
    ensures IsToken(s[m..], i - m, j - m)
    ensures s[m..][i - m..j - m] == s[i..j]
  {
    var t := s[m..];
    assert forall k :: i - m <= k < j - m ==> t[k] == s[k + m];
    assert i - m > 0 ==> t[i - m - 1] == s[i - 1];
    assert j - m < |t| ==> t[j - m] == s[j];
  }

  lemma {:induction false} ShiftTokenUp(s: string, m: nat, a: nat, b: nat)
    requires m <= |s| && IsToken(s[m..], a, b)
    requires a > 0 || !WordBefore(s, m)
    ensures IsToken(s, m + a, m + b)
    ensures s[m + a..m + b] == s[m..][a..b]
  {
    var t := s[m..];
    assert forall k :: m + a <= k < m + b ==> s[k] == t[k - m];
    assert a > 0 ==> s[m + a - 1] == t[a - 1];
    assert m + b < |s| ==> s[m + b] == t[b];
  }

  lemma {:induction false} TokenwiseKeepsOperatorFree(s: string)
    requires NoOperatorToken(s)
    ensures TokenwiseRewrite(s) == s
    decreases |s|
  {
    if s != [] {
      if !IsWordChar(s[0]) {
        forall a: nat, b: nat | IsToken(s[1..], a, b) ensures s[1..][a..b] !in Operators {
          ShiftTokenUp(s, 1, a, b);
        }
        TokenwiseKeepsOperatorFree(s[1..]);
      } else {
        var n := WordRunLength(s);
        assert s[..n] == s[0..n];
        assert IsToken(s, 0, n);
        assert n < |s| ==> s[n..][0] == s[n];
        forall a: nat, b: nat | IsToken(s[n..], a, b) ensures s[n..][a..b] !in Operators {
          ShiftTokenUp(s, n, a, b);
        }
        TokenwiseKeepsOperatorFree(s[n..]);
        assert s[..n] + s[n..] == s;
      }
    }
  }

  lemma {:induction false} TokenwiseChangesOperator(s: string, i: nat, j: nat)
    requires IsToken(s, i, j) && s[i..j] in Operators
    ensures TokenwiseRewrite(s) != s
    decreases |s|
  {
    if !IsWordChar(s[0]) {
      ShiftTokenDown(s, 1, i, j);
      TokenwiseChangesOperator(s[1..], i - 1, j - 1);
      assert TokenwiseRewrite(s)[1..] == TokenwiseRewrite(s[1..]);
    } else {
      var n := WordRunLength(s);
      var token := s[..n];
      if token in Operators {
        assert TokenwiseRewrite(s)[0] == '$';
      } else {
        assert i > 0 ==> !IsWordChar(s[i - 1]);
        assert j < |s| ==> !IsWordChar(s[j]);
        assert s[0..n] == token;
        ShiftTokenDown(s, n, i, j);
        TokenwiseChangesOperator(s[n..], i - n, j - n);
        var out := TokenwiseRewrite(s);
        assert out == token + TokenwiseRewrite(s[n..]);
        assert out[n..] == TokenwiseRewrite(s[n..]);
        assert s[n..] != out[n..];
      }
    }
  }

  /** The rewrite leaves a string unchanged exactly when no token in it is one of
      the four operators. */
  lemma {:induction false} RewriteUnchangedIff(s: string)
    ensures RewriteOperators(s) == s <==> NoOperatorToken(s)
  {
    if NoOperatorToken(s) {
      TokenwiseKeepsOperatorFree(s);
    } else {
      var i: nat, j: nat :| IsToken(s, i, j) && s[i..j] in Operators;
      TokenwiseChangesOperator(s, i, j);
    }
  }
}
