/** The pieces of Go's `strings` and `bytes` packages that the server relies on,
    stated over Dafny sequences. A Go string is a sequence of bytes; the model
    represents it as a `string` holding one character per byte.
 */
module Strings {
  import opened Wrappers

  /** `sub` occurs in `s` starting at position `i`. */
  predicate IsAt<T(==)>(s: seq<T>, sub: seq<T>, i: int) {
    0 <= i && i + |sub| <= |s| && s[i..i + |sub|] == sub
  }

  /** `strings.Contains`. */
  predicate Contains<T(==)>(s: seq<T>, sub: seq<T>) {
    exists i | 0 <= i <= |s| - |sub| :: IsAt(s, sub, i)
  }

  /** A sequence contains each piece it is made of. */
  lemma ContainsMiddle<T>(a: seq<T>, b: seq<T>, c: seq<T>)
    ensures Contains(a + b + c, b)
  {
    assert (a + b + c)[|a|..|a| + |b|] == b;
    assert IsAt(a + b + c, b, |a|);
  }

  /** The first occurrence of `sub` at or after position `k`, or -1. */
  function IndexFrom<T(==)>(s: seq<T>, sub: seq<T>, k: nat): (r: int)
    ensures r == -1 || (k <= r && IsAt(s, sub, r))
    ensures r == -1 <==> forall j :: k <= j ==> !IsAt(s, sub, j)
    ensures forall j :: k <= j < r ==> !IsAt(s, sub, j)
    decreases |s| - k
  {
    if k + |sub| > |s| then -1
    else if s[k..k + |sub|] == sub then k
    else IndexFrom(s, sub, k + 1)
  }

  /** `strings.Index` / `bytes.Index`: the first occurrence of `sub`, or -1. */
  function Index<T(==)>(s: seq<T>, sub: seq<T>): (r: int)
    ensures r == -1 <==> !Contains(s, sub)
    ensures r >= 0 ==> IsAt(s, sub, r) && forall j :: 0 <= j < r ==> !IsAt(s, sub, j)
  {
    IndexFrom(s, sub, 0)
  }

  /** `strings.Index` for a one-element separator: the first position of `x`, or -1. */
  function IndexOf<T(==)>(s: seq<T>, x: T): (r: int)
    ensures -1 <= r < |s|
    ensures r == -1 <==> x !in s
    ensures r >= 0 ==> s[r] == x && x !in s[..r]
  {
    if |s| == 0 then -1
    else if s[0] == x then 0
    else
      var r := IndexOf(s[1..], x);
      assert s[1..][..if r < 0 then 0 else r] == s[1..1 + if r < 0 then 0 else r];
      if r == -1 then -1 else r + 1
  }

  /** `strings.LastIndex` for a one-element separator: the last position of `x`, or -1. */
  function LastIndexOf<T(==)>(s: seq<T>, x: T): (r: int)
    ensures -1 <= r < |s|
    ensures r == -1 <==> x !in s
    ensures r >= 0 ==> s[r] == x && forall k :: r < k < |s| ==> s[k] != x
  {
    LastIndexBefore(s, x, |s|)
  }

  /** The last position of `x` among the first `n` elements of `s`, or -1. */
  function LastIndexBefore<T(==)>(s: seq<T>, x: T, n: nat): (r: int)
    requires n <= |s|
    ensures -1 <= r < n
    ensures r >= 0 ==> s[r] == x
    ensures forall k :: r < k < n ==> s[k] != x
    decreases n
  {
    if n == 0 then -1
    else if s[n - 1] == x then n - 1
    else LastIndexBefore(s, x, n - 1)
  }

  /** The position of `x` in `a + [x] + b` is `|a|` when `x` does not occur in `a`. */
  lemma IndexOfAfterPrefix<T>(a: seq<T>, x: T, b: seq<T>)
    requires x !in a
    ensures IndexOf(a + [x] + b, x) == |a|
  {
    var s := a + [x] + b;
    var r := IndexOf(s, x);
    assert s[|a|] == x;
    assert forall j :: 0 <= j < |a| ==> s[j] == a[j];
    assert forall j :: 0 <= j < r ==> s[..r][j] == s[j];
  }

  /** The first `n` elements of `s` (all of `s` when `n` exceeds its length,
      none when `n` is negative). */
  function Take<T>(s: seq<T>, n: int): (r: seq<T>)
    ensures 0 <= n <= |s| ==> r == s[..n]
  {
    if n <= 0 then [] else if n >= |s| then s else s[..n]
  }

  predicate HasPrefix<T(==)>(s: seq<T>, p: seq<T>) {
    |p| <= |s| && s[..|p|] == p
  }

  predicate HasSuffix<T(==)>(s: seq<T>, p: seq<T>) {
    |p| <= |s| && s[|s| - |p|..] == p
  }

  /** `strings.TrimSuffix`: removes one occurrence of `suffix` at the end, if present. */
  function TrimSuffix<T(==)>(s: seq<T>, suffix: seq<T>): (r: seq<T>)
    ensures HasSuffix(s, suffix) ==> r + suffix == s
    ensures !HasSuffix(s, suffix) ==> r == s
  {
    if HasSuffix(s, suffix) then s[..|s| - |suffix|] else s
  }

  /** `strings.TrimLeft`: removes the leading run of characters from `cutset`. */
  function TrimLeft<T(==)>(s: seq<T>, cutset: set<T>): (r: seq<T>)
    ensures |r| <= |s| && r == s[|s| - |r|..]
    ensures forall i :: 0 <= i < |s| - |r| ==> s[i] in cutset
    ensures |r| > 0 ==> r[0] !in cutset
  {
    if |s| > 0 && s[0] in cutset then
      var r := TrimLeft(s[1..], cutset);
      assert s[1..][|s| - 1 - |r|..] == s[|s| - |r|..];
      assert forall i :: 1 <= i < |s| - |r| ==> s[i] == s[1..][i - 1];
      r
    else s
  }

  /** `strings.TrimRight`: removes the trailing run of characters from `cutset`. */
  function TrimRight<T(==)>(s: seq<T>, cutset: set<T>): (r: seq<T>)
    ensures |r| <= |s| && r == s[..|r|]
    ensures forall i :: |r| <= i < |s| ==> s[i] in cutset
    ensures |r| > 0 ==> r[|r| - 1] !in cutset
  {
    if |s| > 0 && s[|s| - 1] in cutset then
      var r := TrimRight(s[..|s| - 1], cutset);
      assert s[..|s| - 1][..|r|] == s[..|r|];
      assert forall i :: |r| <= i < |s| - 1 ==> s[i] == s[..|s| - 1][i];
      r
    else s
  }

  /** `strings.Join`. */
  function Join<T>(parts: seq<seq<T>>, sep: seq<T>): seq<T>
  {
    if |parts| == 0 then []
    else if |parts| == 1 then parts[0]
    else parts[0] + sep + Join(parts[1..], sep)
  }

  /** `strings.Split` with a one-element separator. */
  function Split<T(==)>(s: seq<T>, sep: T): (r: seq<seq<T>>)
    ensures |r| >= 1
    ensures forall i :: 0 <= i < |r| ==> sep !in r[i]
    ensures Join(r, [sep]) == s
    decreases |s|
  {
    var i := IndexOf(s, sep);
    if i < 0 then [s]
    else
      var rest := Split(s[i + 1..], sep);
      assert ([s[..i]] + rest)[1..] == rest;
      assert s == s[..i] + [sep] + s[i + 1..];
      [s[..i]] + rest
  }

  /** Splitting a joined list gives the list back, provided no part holds the
      separator (a list with no parts cannot come back: `Split` never returns one). */
  lemma {:induction false} SplitJoin<T>(parts: seq<seq<T>>, sep: T)
    requires |parts| >= 1
    requires forall i :: 0 <= i < |parts| ==> sep !in parts[i]
    ensures Split(Join(parts, [sep]), sep) == parts
    decreases |parts|
  {
    if |parts| == 1 {
      assert Join(parts, [sep]) == parts[0];
      assert IndexOf(parts[0], sep) == -1;
    } else {
      var head := parts[0];
      var tail := parts[1..];
      var rest := Join(tail, [sep]);
      var s := head + [sep] + rest;
      assert Join(parts, [sep]) == s;
      IndexOfAfterPrefix(head, sep, rest);
      assert s[..|head|] == head;
      assert s[|head| + 1..] == rest;
      assert Split(s, sep) == [head] + Split(rest, sep);
      assert forall i :: 0 <= i < |tail| ==> tail[i] == parts[i + 1];
      SplitJoin(tail, sep);
      assert [head] + tail == parts;
    }
  }

  /** `strings.SplitN(s, sep, 2)` with a one-element separator. */
  function SplitN2<T(==)>(s: seq<T>, sep: T): (r: seq<seq<T>>)
    ensures |r| == 1 || |r| == 2
    ensures |r| == 2 <==> sep in s
    ensures |r| == 1 ==> r[0] == s
    ensures |r| == 2 ==> r[0] + [sep] + r[1] == s && sep !in r[0]
  {
    var i := IndexOf(s, sep);
    if i < 0 then [s]
    else
      assert s == s[..i] + [sep] + s[i + 1..];
      [s[..i], s[i + 1..]]
  }

  /** `strings.Replace(s, x, "", -1)` for a one-element `x`. */
  function RemoveAll(s: string, x: char): (r: string)
    ensures x !in r
    ensures forall y :: y in r <==> y in s && y != x
  {
    if |s| == 0 then []
    else if s[0] == x then RemoveAll(s[1..], x)
    else [s[0]] + RemoveAll(s[1..], x)
  }

  /** `strings.Repeat`. */
  function Repeat<T>(x: T, n: nat): (r: seq<T>)
    ensures |r| == n && forall i :: 0 <= i < n ==> r[i] == x
  {
    if n == 0 then [] else [x] + Repeat(x, n - 1)
  }

  /** ASCII case mapping used for `strings.ToLower`. */
  function LowerChar(c: char): char {
    if 'A' <= c <= 'Z' then (c as int + 32) as char else c
  }

  function ToLower(s: string): (r: string)
    ensures |r| == |s|
    ensures forall i :: 0 <= i < |s| ==> r[i] == LowerChar(s[i])
  {
    if |s| == 0 then "" else [LowerChar(s[0])] + ToLower(s[1..])
  }

  /** A character `strconv.Quote` writes as it is: printable ASCII other than
      the double quote and the backslash, or a character beyond ASCII. */
  predicate Plain(c: char) {
    (' ' <= c <= '~' && c != '"' && c != '\\') || c as int >= 0x80
  }

  const LowerHexDigits := "0123456789abcdef"

  /** The value of a hex digit of either case; 16 for any other character. */
  function HexValue(c: char): (v: nat)
    ensures v <= 16
  {
    if '0' <= c <= '9' then c as int - '0' as int
    else if 'a' <= c <= 'f' then c as int - 'a' as int + 10
    else if 'A' <= c <= 'F' then c as int - 'A' as int + 10
    else 16
  }

  /** `strconv.Quote`'s escape of one character: a backslash before '"' and
      '\\', the named escapes of the C control characters, `\x` and two
      lower-case hex digits for the other ASCII control characters and DEL. */
  function EscapeChar(c: char): (r: string)
    ensures Plain(c) <==> r == [c]
    ensures !Plain(c) ==> 2 <= |r| && r[0] == '\\'
  {
    if c == '"' || c == '\\' then ['\\', c]
    else if Plain(c) then [c]
    else if c as int == 7 then "\\a"
    else if c as int == 8 then "\\b"
    else if c as int == 12 then "\\f"
    else if c == '\n' then "\\n"
    else if c == '\r' then "\\r"
    else if c == '\t' then "\\t"
    else if c as int == 11 then "\\v"
    else ['\\', 'x', LowerHexDigits[c as int / 16], LowerHexDigits[c as int % 16]]
  }

  /** The escaped characters of a string, in order. */
  function Escaped(s: string): (r: string)
    ensures |r| >= |s|
    ensures (forall i :: 0 <= i < |s| ==> Plain(s[i])) ==> r == s
  {
    if |s| == 0 then ""
    else
      assert forall i :: 1 <= i < |s| ==> s[1..][i - 1] == s[i];
      EscapeChar(s[0]) + Escaped(s[1..])
  }

  /** Go's `%q` of a string: `strconv.Quote`. */
  function Quoted(s: string): (r: string)
    ensures |r| >= |s| + 2 && r[0] == '"' && r[|r| - 1] == '"'
    ensures (forall i :: 0 <= i < |s| ==> Plain(s[i])) ==> r == "\"" + s + "\""
    ensures Unquote(r) == Some(s)
  {
    var r := "\"" + Escaped(s) + "\"";
    assert r[1..|r| - 1] == Escaped(s);
    UnescapeEscaped(s);
    r
  }

  /** The character a backslash and `e` stand for, for the escapes other than `\x`. */
  function NamedEscape(e: char): (r: Option<char>)
    ensures r.Some? ==> EscapeChar(r.value) == ['\\', e]
  {
    if e == '"' || e == '\\' then Some(e)
    else if e == 'a' then Some(7 as char)
    else if e == 'b' then Some(8 as char)
    else if e == 'f' then Some(12 as char)
    else if e == 'n' then Some('\n')
    else if e == 'r' then Some('\r')
    else if e == 't' then Some('\t')
    else if e == 'v' then Some(11 as char)
    else None
  }

  function Prepend(c: char, rest: Option<string>): Option<string> {
    match rest
    case None => None
    case Some(u) => Some([c] + u)
  }

  /** Reading the escapes back: `None` for an unescaped double quote, a
      dangling backslash, or an unknown escape. */
  function Unescape(t: string): (r: Option<string>)
    ensures r.Some? ==> |r.value| <= |t|
    decreases |t|
  {
    if |t| == 0 then Some("")
    else if t[0] == '"' then None
    else if t[0] != '\\' then Prepend(t[0], Unescape(t[1..]))
    else if |t| < 2 then None
    else if t[1] == 'x' then
      if |t| < 4 || HexValue(t[2]) == 16 || HexValue(t[3]) == 16 then None
      else Prepend((HexValue(t[2]) * 16 + HexValue(t[3])) as char, Unescape(t[4..]))
    else match NamedEscape(t[1])
      case None => None
      case Some(c) => Prepend(c, Unescape(t[2..]))
  }

  /** `strconv.Unquote` restricted to the escapes `Quoted` writes. */
  function Unquote(q: string): (r: Option<string>)
    ensures r.Some? ==> |q| >= 2 && q[0] == '"' && q[|q| - 1] == '"'
  {
    if |q| < 2 || q[0] != '"' || q[|q| - 1] != '"' then None
    else Unescape(q[1..|q| - 1])
  }

  /** A hex digit written from a nibble reads back as that nibble. */
  lemma HexDigitRoundTrip(d: nat)
    requires d < 16
    ensures HexValue(LowerHexDigits[d]) == d
  {
  }

  /** A plain character is read back as itself. */
  lemma UnescapePlain(c: char, rest: string)
    requires Plain(c)
    ensures Unescape([c] + rest) == Prepend(c, Unescape(rest))
  {
    assert ([c] + rest)[1..] == rest;
  }

  /** A two-character escape is read back as its character. */
  lemma UnescapeNamed(c: char, e: char, rest: string)
    requires NamedEscape(e) == Some(c) && e != 'x'
    ensures Unescape(['\\', e] + rest) == Prepend(c, Unescape(rest))
  {
    assert (['\\', e] + rest)[2..] == rest;
  }

  /** A `\x` escape is read back as the character of its two digits. */
  lemma UnescapeHex(c: char, rest: string)
    requires c as int < 0x80
    ensures Unescape(['\\', 'x', LowerHexDigits[c as int / 16], LowerHexDigits[c as int % 16]] + rest) ==
            Prepend(c, Unescape(rest))
  {
    var t := ['\\', 'x', LowerHexDigits[c as int / 16], LowerHexDigits[c as int % 16]] + rest;
    HexDigitRoundTrip(c as int / 16);
    HexDigitRoundTrip(c as int % 16);
    assert t[4..] == rest;
  }

  /** Unescaping reads an escaped character back and continues after it. */
  lemma UnescapeChar(c: char, rest: string)
    ensures Unescape(EscapeChar(c) + rest) == Prepend(c, Unescape(rest))
  {
    var e := EscapeChar(c);
    if Plain(c) {
      UnescapePlain(c, rest);
    } else if |e| == 2 {
      assert NamedEscape(e[1]) == Some(c);
      UnescapeNamed(c, e[1], rest);
    } else {
      UnescapeHex(c, rest);
    }
  }

  /** Unescaping undoes escaping. */
  lemma {:induction false} UnescapeEscaped(s: string)
    ensures Unescape(Escaped(s)) == Some(s)
    decreases |s|
  {
    if |s| > 0 {
      UnescapeChar(s[0], Escaped(s[1..]));
      UnescapeEscaped(s[1..]);
      assert [s[0]] + s[1..] == s;
    }
  }

  /** Go's `%v` of a list of strings. */
  function ListText(xs: seq<string>): string {
    "[" + Join(xs, " ") + "]"
  }
}
