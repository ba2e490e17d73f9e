/** The pieces of the JavaScript runtime and of Express that the handlers lean on:
    the values a request carries, JavaScript truthiness, `Number(...)` on a query
    string, `String.prototype.split` / `Array.prototype.join`, `Buffer#toString('hex')`,
    and the shape of an error response. */
module Runtime {

  datatype Option<+T> = None | Some(value: T)

  datatype Result<+T, +E> = Ok(value: T) | Err(error: E)

  /** A value the query-string parser produces: a plain string, an array (a key
      repeated, `?a=1&a=2`) or an object (a bracketed key, `?price[gte]=5`). */
  datatype QueryValue =
    | Text(text: string)
    | List(items: seq<QueryValue>)
    | Obj(fields: map<string, QueryValue>)

  /** A value the JSON body parser produces. */
  datatype JsonValue =
    | JNull
    | JBool(b: bool)
    | JNumber(n: real)
    | JString(s: string)
    | JArray(items: seq<JsonValue>)
    | JObject(fields: map<string, JsonValue>)

  /** JavaScript truthiness of a query value: only the empty string is falsy;
      arrays and objects are always truthy. */
  predicate QueryTruthy(v: QueryValue) {
    !(v.Text? && v.text == "")
  }

  /** Truthiness of `q[key]`, where a missing key reads as `undefined`. */
  predicate QueryParamTruthy(q: map<string, QueryValue>, key: string) {
    key in q && QueryTruthy(q[key])
  }

  /** JavaScript truthiness of a JSON value. */
  predicate JsonTruthy(v: JsonValue) {
    match v
    case JNull => false
    case JBool(b) => b
    case JNumber(n) => n != 0.0
    case JString(s) => s != ""
    case JArray(_) => true
    case JObject(_) => true
  }

  /** Truthiness of `body[key]`, where a missing key reads as `undefined`. */
  predicate BodyFieldTruthy(body: map<string, JsonValue>, key: string) {
    key in body && JsonTruthy(body[key])
  }

  // ---------------------------------------------------------------------------
  // Number(...) on query values

  /** The result of a numeric conversion: an integer or NaN. */
  datatype Numeric = Finite(value: int) | NaN

  predicate IsDigit(c: char) {
    '0' <= c <= '9'
  }

  predicate AllDigits(s: string) {
    |s| > 0 && forall i :: 0 <= i < |s| ==> IsDigit(s[i])
  }

  function DigitValue(c: char): nat
    requires IsDigit(c)
  {
    c as int - '0' as int
  }

  function DigitChar(d: nat): (c: char)
    requires d < 10
    ensures IsDigit(c) && DigitValue(c) == d
  {
    (48 + d) as char
  }

  /** The value of a string of decimal digits, most significant first. */
  function DigitsValue(s: string): nat
    requires forall i :: 0 <= i < |s| ==> IsDigit(s[i])
  {
    if s == [] then 0 else DigitsValue(s[..|s| - 1]) * 10 + DigitValue(s[|s| - 1])
  }

  /** The white space `Number(...)` ignores around its text: the ECMAScript
      WhiteSpace and LineTerminator characters. */
  predicate IsJsWhitespace(c: char) {
    || c == '\t' || c == '\n' || c == '\U{000B}' || c == '\U{000C}' || c == '\r' || c == ' '
    || c == '\U{00A0}' || c == '\U{1680}' || '\U{2000}' <= c <= '\U{200A}'
    || c == '\U{2028}' || c == '\U{2029}' || c == '\U{202F}' || c == '\U{205F}'
    || c == '\U{3000}' || c == '\U{FEFF}'
  }

  /** `s` without its leading white space. */
  function TrimStart(s: string): (r: string)
    ensures |r| <= |s| && r == s[|s| - |r|..]
    ensures r == [] || !IsJsWhitespace(r[0])
    ensures forall i :: 0 <= i < |s| - |r| ==> IsJsWhitespace(s[i])
  {
    if s != [] && IsJsWhitespace(s[0]) then TrimStart(s[1..]) else s
  }

  /** `s` without its trailing white space. */
  function TrimEnd(s: string): (r: string)
    ensures |r| <= |s| && r == s[..|r|]
    ensures r == [] || !IsJsWhitespace(r[|r| - 1])
    ensures forall i :: |r| <= i < |s| ==> IsJsWhitespace(s[i])
  {
    if s != [] && IsJsWhitespace(s[|s| - 1]) then TrimEnd(s[..|s| - 1]) else s
  }

  /** `s.trim()`. */
  function Trim(s: string): string {
    TrimEnd(TrimStart(s))
  }

  /** White space on either side of a text that begins and ends with something
      else is exactly what trimming removes. */
  lemma TrimPadding(pre: string, s: string, post: string)
    requires forall i :: 0 <= i < |pre| ==> IsJsWhitespace(pre[i])
    requires forall i :: 0 <= i < |post| ==> IsJsWhitespace(post[i])
    requires s != [] && !IsJsWhitespace(s[0]) && !IsJsWhitespace(s[|s| - 1])
    ensures Trim(pre + s + post) == s
  {
    var x := pre + s + post;
    var r := TrimStart(x);
    assert x[|pre|] == s[0];
    assert forall i :: 0 <= i < |pre| ==> x[i] == pre[i];
    assert |x| - |r| == |pre|;
    assert r == s + post;
    var t := TrimEnd(r);
    assert r[|s| - 1] == s[|s| - 1];
    assert forall i :: |s| <= i < |r| ==> r[i] == post[i - |s|];
    assert t == s;
  }

  /** A sign (optional) followed by one or more decimal digits. */
  predicate SignedDigits(t: string) {
    AllDigits(t) || (|t| > 0 && (t[0] == '+' || t[0] == '-') && AllDigits(t[1..]))
  }

  /** `Number(t)` on a text without surrounding white space, for the strings a
      page number is written with: the empty text is 0, an optional sign followed
      by decimal digits is that integer, and every other text is NaN. */
  function DecimalNumber(t: string): Numeric {
    if t == "" then Finite(0)
    else if AllDigits(t) then Finite(DigitsValue(t))
    else if (t[0] == '+' || t[0] == '-') && AllDigits(t[1..]) then
      var magnitude: int := DigitsValue(t[1..]);
      Finite(if t[0] == '-' then -magnitude else magnitude)
    else NaN
  }

  /** `Number(s)`: the white space around the text is ignored, so a blank text is
      0; otherwise only a signed decimal integer is a number, and a negative one
      carries a minus sign. */
  function StringToNumber(s: string): (r: Numeric)
    ensures Trim(s) == [] ==> r == Finite(0)
    ensures r.Finite? && Trim(s) != [] ==> SignedDigits(Trim(s))
    ensures r.Finite? && r.value < 0 ==> Trim(s)[0] == '-'
  {
    DecimalNumber(Trim(s))
  }

  /** `value * 1` on a query value. An array converts through its string form
      (its elements joined by commas): the empty array is 0, a one-element array
      converts like its element, and a longer one holds a comma and is NaN. An
      object reads as "[object Object]", which is NaN. So only a text or an array
      of at most one element can be a number. */
  function ToNumber(v: QueryValue): (r: Numeric)
    ensures r.Finite? ==> v.Text? || (v.List? && |v.items| <= 1)
  {
    match v
    case Text(s) => StringToNumber(s)
    case List(items) =>
      if |items| == 0 then Finite(0)
      else if |items| == 1 then ToNumber(items[0])
      else NaN
    case Obj(_) => NaN
  }

  /** `String(n)` for a natural number. */
  function NatToString(n: nat): (s: string)
    ensures AllDigits(s)
  {
    if n < 10 then [DigitChar(n)] else NatToString(n / 10) + [DigitChar(n % 10)]
  }

  /** `String(n)` for an integer. */
  function IntToString(n: int): string {
    if n < 0 then "-" + NatToString(-n) else NatToString(n)
  }

  lemma {:induction false} NatToStringValue(n: nat)
    ensures DigitsValue(NatToString(n)) == n
  {
    if n >= 10 {
      var s := NatToString(n);
      var prefix := NatToString(n / 10);
      assert s[..|s| - 1] == prefix;
      NatToStringValue(n / 10);
    }
  }

  /** The decimal text of an integer begins and ends with something other than
      white space. */
  lemma IntStringUnpadded(n: int)
    ensures var s := IntToString(n); s != [] && !IsJsWhitespace(s[0]) && !IsJsWhitespace(s[|s| - 1])
  {
    var digits := NatToString(if n < 0 then -n else n);
    assert IsDigit(digits[0]) && IsDigit(digits[|digits| - 1]);
  }

  /** The decimal text of an integer reads back as that integer. */
  lemma DecimalOfIntString(n: int)
    ensures DecimalNumber(IntToString(n)) == Finite(n)
  {
    if n < 0 {
      assert IntToString(n)[1..] == NatToString(-n);
      NatToStringValue(-n);
    } else {
      NatToStringValue(n);
    }
  }

  /** `Number(String(n)) == n`: an integer written in decimal converts back to itself. */
  lemma NumberOfIntString(n: int)
    ensures StringToNumber(IntToString(n)) == Finite(n)
  {
    var s := IntToString(n);
    IntStringUnpadded(n);
    TrimPadding([], s, []);
    assert [] + s + [] == s;
    DecimalOfIntString(n);
  }

  /** White space around the decimal text of an integer does not change its value:
      `?page=%202` is page 2. */
  lemma PaddedNumber(pre: string, n: int, post: string)
    requires forall i :: 0 <= i < |pre| ==> IsJsWhitespace(pre[i])
    requires forall i :: 0 <= i < |post| ==> IsJsWhitespace(post[i])
    ensures StringToNumber(pre + IntToString(n) + post) == Finite(n)
  {
    IntStringUnpadded(n);
    TrimPadding(pre, IntToString(n), post);
    NumberOfIntString(n);
    TrimPadding([], IntToString(n), []);
    assert [] + IntToString(n) + [] == IntToString(n);
  }

  // ---------------------------------------------------------------------------
  // String.prototype.toLowerCase

  /** `c.toLowerCase()` on an ASCII character. */
  function LowerChar(c: char): char {
    if 'A' <= c <= 'Z' then (c as int + 32) as char else c
  }

  /** `s.toLowerCase()`, character by character. */
  function LowerCase(s: string): (r: string)
    ensures |r| == |s|
    ensures forall i :: 0 <= i < |s| ==> r[i] == LowerChar(s[i])
  {
    if s == [] then [] else [LowerChar(s[0])] + LowerCase(s[1..])
  }

  /** Lower-casing twice is lower-casing once. */
  lemma LowerCaseIdempotent(s: string)
    ensures LowerCase(LowerCase(s)) == LowerCase(s)
  {
  }

  // ---------------------------------------------------------------------------
  // String.prototype.split and Array.prototype.join

  /** `s.split(sep)` for a one-character separator: the pieces between separators,
      in order, including empty ones; never an empty list. */
  function Split(s: string, sep: char): (parts: seq<string>)
    ensures |parts| >= 1
    ensures forall i :: 0 <= i < |parts| ==> sep !in parts[i]
  {
    if s == [] then [""]
    else
      var rest := Split(s[1..], sep);
      if s[0] == sep then [""] + rest
      else [[s[0]] + rest[0]] + rest[1..]
  }

  /** `parts.join(sep)`. */
  function Join(parts: seq<string>, sep: string): string {
    if parts == [] then ""
    else if |parts| == 1 then parts[0]
    else parts[0] + sep + Join(parts[1..], sep)
  }

  /** Every occurrence of `c` in `s` replaced by `d`; all else kept in place. */
  function ReplaceChar(s: string, c: char, d: char): (r: string)
    ensures |r| == |s|
    ensures forall i :: 0 <= i < |s| ==> r[i] == if s[i] == c then d else s[i]
  {
    if s == [] then [] else [if s[0] == c then d else s[0]] + ReplaceChar(s[1..], c, d)
  }

  lemma JoinConsFirst(c: char, parts: seq<string>, sep: string)
    requires |parts| >= 1
    ensures Join([[c] + parts[0]] + parts[1..], sep) == [c] + Join(parts, sep)
  {
    var cons := [[c] + parts[0]] + parts[1..];
    if |parts| > 1 {
      assert cons[1..] == parts[1..];
    }
  }

  /** The position of the first `c` in `s`, or `|s|` when there is none. */
  function IndexOf(s: string, c: char): (i: nat)
    ensures i <= |s|
    ensures forall k :: 0 <= k < i ==> s[k] != c
    ensures i < |s| ==> s[i] == c
  {
    if s == [] || s[0] == c then 0 else 1 + IndexOf(s[1..], c)
  }

  /** The first piece of a split is the text before the first separator; the
      other pieces are the split of the text after it. */
  lemma {:induction false} SplitFirstPiece(s: string, sep: char)
    ensures Split(s, sep)[0] == s[..IndexOf(s, sep)]
    ensures IndexOf(s, sep) == |s| ==> |Split(s, sep)| == 1
    ensures IndexOf(s, sep) < |s| ==> Split(s, sep)[1..] == Split(s[IndexOf(s, sep) + 1..], sep)
  {
    var i := IndexOf(s, sep);
    var head := s[..i];
    assert sep !in head by {
      forall k | 0 <= k < |head| ensures head[k] != sep {
        assert head[k] == s[k];
      }
    }
    if i == |s| {
      assert head == s;
      SplitWithoutSeparator(s, sep);
    } else {
      assert s == head + [sep] + s[i + 1..];
      SplitAfterHead(head, sep, s[i + 1..]);
    }
  }

  /** `s.split(sep).join(by)` replaces each separator by `by` and keeps every other
      character where it was. */
  lemma {:induction false} SplitJoinReplaces(s: string, sep: char, with: char)
    ensures Join(Split(s, sep), [with]) == ReplaceChar(s, sep, with)
  {
    if s != [] {
      var rest := Split(s[1..], sep);
      SplitJoinReplaces(s[1..], sep, with);
      if s[0] == sep {
        assert ([""] + rest)[1..] == rest;
      } else {
        JoinConsFirst(s[0], rest, [with]);
      }
    }
  }

  /** Joining the pieces of a split with the same separator gives back the string. */
  lemma SplitJoinRoundTrip(s: string, sep: char)
    ensures Join(Split(s, sep), [sep]) == s
  {
    SplitJoinReplaces(s, sep, sep);
    assert ReplaceChar(s, sep, sep) == s;
  }

  /** A string without the separator splits into itself alone. */
  lemma {:induction false} SplitWithoutSeparator(s: string, sep: char)
    requires sep !in s
    ensures Split(s, sep) == [s]
  {
    if s != [] {
      assert sep !in s[1..] by {
        forall i | 0 <= i < |s[1..]| ensures s[1..][i] != sep {
          assert s[1..][i] == s[i + 1];
        }
      }
      SplitWithoutSeparator(s[1..], sep);
      assert s[0] != sep;
      assert [s[0]] + s[1..] == s;
    }
  }

  /** A separator-free head followed by a separator splits off as the first piece. */
  lemma {:induction false} SplitAfterHead(head: string, sep: char, tail: string)
    requires sep !in head
    ensures Split(head + [sep] + tail, sep) == [head] + Split(tail, sep)
  {
    var s := head + [sep] + tail;
    if head == [] {
      assert s[1..] == tail;
    } else {
      assert s[1..] == head[1..] + [sep] + tail;
      assert sep !in head[1..] by {
        forall i | 0 <= i < |head[1..]| ensures head[1..][i] != sep {
          assert head[1..][i] == head[i + 1];
        }
      }
      SplitAfterHead(head[1..], sep, tail);
      assert [head[0]] + head[1..] == head;
    }
  }

  // ---------------------------------------------------------------------------
  // Buffer#toString('hex')

  function HexDigit(v: nat): char
    requires v < 16
  {
    if v < 10 then (48 + v) as char else (87 + v) as char
  }

  function HexDigitValue(c: char): Option<nat> {
    if '0' <= c <= '9' then Some(c as int - 48)
    else if 'a' <= c <= 'f' then Some(c as int - 87)
    else None
  }

  /** Lower-case hexadecimal, two digits per byte, high nibble first. */
  function HexEncode(bytes: seq<bv8>): (s: string)
    ensures |s| == 2 * |bytes|
    ensures forall i :: 0 <= i < |s| ==> HexDigitValue(s[i]).Some?
  {
    if bytes == [] then []
    else
      var b := bytes[0] as int;
      [HexDigit(b / 16), HexDigit(b % 16)] + HexEncode(bytes[1..])
  }

  /** The bytes a lower-case hexadecimal string spells, or None when it has an odd
      length or a character that is not a lower-case hexadecimal digit. */
  function HexDecode(s: string): Option<seq<bv8>> {
    if s == [] then Some([])
    else if |s| == 1 then None
    else
      var hi, lo, rest := HexDigitValue(s[0]), HexDigitValue(s[1]), HexDecode(s[2..]);
      if hi.Some? && lo.Some? && rest.Some? && hi.value < 16 && lo.value < 16 then
        Some([(hi.value * 16 + lo.value) as bv8] + rest.value)
      else None
  }

  lemma HexByte(b: bv8)
    ensures HexDigitValue(HexDigit(b as int / 16)) == Some(b as int / 16)
    ensures HexDigitValue(HexDigit(b as int % 16)) == Some(b as int % 16)
    ensures ((b as int / 16) * 16 + b as int % 16) as bv8 == b
  {
  }

  /** Decoding the hexadecimal form of a byte string gives back the bytes. */
  lemma {:induction false} HexRoundTrip(bytes: seq<bv8>)
    ensures HexDecode(HexEncode(bytes)) == Some(bytes)
  {
    if bytes != [] {
      var s := HexEncode(bytes);
      assert s[2..] == HexEncode(bytes[1..]);
      HexRoundTrip(bytes[1..]);
      HexByte(bytes[0]);
      assert [bytes[0]] + bytes[1..] == bytes;
    }
  }

  // ---------------------------------------------------------------------------
  // Error responses

  /** What a handler sends when it stops early: either the `apiError` object with
      its own `statusCode` and `errMessage`, or a `status: 'Failed'` body sent with
      an HTTP status (the handlers' catch blocks and the mail-failure branch). */
  datatype RouteError =
    | Rejected(statusCode: int, errMessage: string)
    | Failed(httpStatus: int)
}
