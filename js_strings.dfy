/**
  String operations of JavaScript that the listing pipeline relies on:
  `trim`, `split(c)[0]`, `includes`, case-insensitive matching of ASCII
  patterns (the `/i` flag of a non-Unicode regular expression), the decimal
  form of a non-negative integer, and splitting and joining on one separator.
  Strings are sequences of Unicode scalar values; JavaScript's `length`,
  which counts UTF-16 code units, is `Utf16Length`.
*/
module JsStrings {

  /** WhiteSpace and LineTerminator code points of ECMA-262: what `trim` strips and `\s` matches. */
  predicate IsJsSpace(c: char) {
    var n := c as int;
    n == 0x09 || n == 0x0A || n == 0x0B || n == 0x0C || n == 0x0D || n == 0x20 ||
    n == 0xA0 || n == 0x1680 || (0x2000 <= n <= 0x200A) || n == 0x2028 || n == 0x2029 ||
    n == 0x202F || n == 0x205F || n == 0x3000 || n == 0xFEFF
  }

  predicate IsDigit(c: char) {
    '0' <= c <= '9'
  }

  predicate AllDigits(s: string) {
    forall i :: 0 <= i < |s| ==> IsDigit(s[i])
  }

  predicate HasSpace(s: string) {
    exists i :: 0 <= i < |s| && IsJsSpace(s[i])
  }

  /** Number of white-space characters at the start of `s`. */
  function LeadingSpaces(s: string): (n: nat)
    ensures n <= |s|
    ensures n < |s| ==> !IsJsSpace(s[n])
    ensures forall i :: 0 <= i < n ==> IsJsSpace(s[i])
  {
    if s == [] || !IsJsSpace(s[0]) then 0 else 1 + LeadingSpaces(s[1..])
  }

  /** `String.prototype.trimStart`. */
  function TrimStart(s: string): (r: string)
  {
    s[LeadingSpaces(s)..]
  }

  /** `String.prototype.trimEnd`. */
  function TrimEnd(s: string): (r: string)
    ensures |r| <= |s| && r == s[..|r|]
    ensures r == [] || !IsJsSpace(r[|r| - 1])
    ensures forall i :: |r| <= i < |s| ==> IsJsSpace(s[i])
  {
    if s == [] || !IsJsSpace(s[|s| - 1]) then s else TrimEnd(s[..|s| - 1])
  }

  /** `String.prototype.trim`. */
  function Trim(s: string): (r: string)
  {
    TrimEnd(TrimStart(s))
  }

  /** The result of `trim` is a piece of its input that neither starts nor ends with white space. */
  lemma TrimIsTrimmedSlice(s: string)
    ensures var a := |s| - |TrimStart(s)|; a + |Trim(s)| <= |s| && Trim(s) == s[a..a + |Trim(s)|]
    ensures Trim(s) == [] || (!IsJsSpace(Trim(s)[0]) && !IsJsSpace(Trim(s)[|Trim(s)| - 1]))
  {
    TrimSlice(s);
    TrimFirstNotSpace(s);
  }

  /** The result of `trim` is the piece of its input after the leading white space. */
  lemma TrimSlice(s: string)
    ensures var a := |s| - |TrimStart(s)|; a + |Trim(s)| <= |s| && Trim(s) == s[a..a + |Trim(s)|]
  {
  }

  /** The result of `trim` does not start with white space. */
  lemma TrimFirstNotSpace(s: string)
    ensures Trim(s) == [] || !IsJsSpace(Trim(s)[0])
  {
    if Trim(s) != [] {
      assert Trim(s)[0] == TrimStart(s)[0];
    }
  }

  /** Trimming twice is trimming once. */
  lemma TrimIdempotent(s: string)
    ensures Trim(Trim(s)) == Trim(s)
  {
    TrimIsTrimmedSlice(s);
  }

  /** Index of the first occurrence of `c`, or `|s|` when there is none. */
  function IndexOf(s: string, c: char): (r: nat)
    ensures r <= |s|
    ensures r < |s| ==> s[r] == c
    ensures forall i :: 0 <= i < r ==> s[i] != c
  {
    if s == [] then 0 else if s[0] == c then 0 else 1 + IndexOf(s[1..], c)
  }

  /** `s.split(c)[0]`: the text before the first `c` (all of `s` when there is none). */
  function BeforeFirst(s: string, c: char): (r: string)
    ensures c !in r
    ensures |r| <= |s| && r == s[..|r|]
    ensures c in s <==> |r| < |s|
  {
    s[..IndexOf(s, c)]
  }

  /** The text after the first `c` (empty when there is none). */
  function AfterFirst(s: string, c: char): (r: string)
    ensures c in s ==> s == BeforeFirst(s, c) + [c] + r
    ensures c !in s ==> r == []
  {
    var i := IndexOf(s, c);
    if i < |s| then s[i + 1..] else []
  }

  /** `String.prototype.includes`. */
  predicate Contains(s: string, sub: string)
    decreases |s|
  {
    (|sub| <= |s| && s[..|sub|] == sub) || (s != [] && Contains(s[1..], sub))
  }

  /** An occurrence of `sub` at position `i` makes `s` contain it. */
  lemma {:induction false} ContainsAt(s: string, sub: string, i: nat)
    requires i + |sub| <= |s| && s[i..i + |sub|] == sub
    ensures Contains(s, sub)
  {
    if i > 0 {
      assert s[1..][i - 1..i - 1 + |sub|] == s[i..i + |sub|];
      ContainsAt(s[1..], sub, i - 1);
    }
  }

  /** Including a one-character string is containing that character. */
  lemma {:induction false} ContainsChar(s: string, c: char)
    ensures Contains(s, [c]) <==> c in s
    decreases |s|
  {
    if s != [] {
      ContainsChar(s[1..], c);
      assert s == [s[0]] + s[1..];
    }
  }

  /** `s.length`: the number of UTF-16 code units, two for a character above U+FFFF. */
  function Utf16Length(s: string): (n: nat)
    ensures |s| <= n <= 2 * |s|
    ensures (forall k :: 0 <= k < |s| ==> s[k] as int <= 0xFFFF) ==> n == |s|
  {
    if s == [] then 0 else (if s[0] as int > 0xFFFF then 2 else 1) + Utf16Length(s[1..])
  }

  /** ASCII lower case; every other character is left alone (non-Unicode `/i` folding on ASCII patterns). */
  function LowerAscii(c: char): char
  {
    if 'A' <= c <= 'Z' then (c as int + 32) as char else c
  }

  /** `s` starts with the lower-case ASCII word `w`, ignoring case. */
  predicate StartsWithCI(s: string, w: string)
  {
    |w| <= |s| && forall k :: 0 <= k < |w| ==> LowerAscii(s[k]) == w[k]
  }

  /** `/w/i.test(s)`: `w` occurs somewhere in `s`, ignoring case. */
  predicate ContainsCI(s: string, w: string)
    decreases |s|
  {
    StartsWithCI(s, w) || (s != [] && ContainsCI(s[1..], w))
  }

  /** `/w1|w2|.../i.test(s)`: one of the words occurs somewhere in `s`, ignoring case. */
  predicate ContainsAnyCI(s: string, words: seq<string>)
  {
    exists k :: 0 <= k < |words| && ContainsCI(s, words[k])
  }

  /** Every ASCII letter of `s` in lower case. */
  function LowerAsciiString(s: string): (r: string)
    ensures |r| == |s| && forall k :: 0 <= k < |s| ==> r[k] == LowerAscii(s[k])
  {
    seq(|s|, k requires 0 <= k < |s| => LowerAscii(s[k]))
  }

  /** Lowering a character twice is lowering it once. */
  lemma LowerAsciiIdempotent(c: char)
    ensures LowerAscii(LowerAscii(c)) == LowerAscii(c)
  {
  }

  /** A case-insensitive search finds the same words in a text and in its lower-case form. */
  lemma {:induction false} ContainsCILower(s: string, w: string)
    ensures ContainsCI(LowerAsciiString(s), w) <==> ContainsCI(s, w)
    decreases |s|
  {
    var l := LowerAsciiString(s);
    forall k | 0 <= k < |s|
      ensures LowerAscii(l[k]) == LowerAscii(s[k])
    {
      LowerAsciiIdempotent(s[k]);
    }
    assert StartsWithCI(l, w) <==> StartsWithCI(s, w);
    if s != [] {
      ContainsCILower(s[1..], w);
      assert l[1..] == LowerAsciiString(s[1..]);
    }
  }

  /** The same for a search for any of several words. */
  lemma ContainsAnyCILower(s: string, words: seq<string>)
    ensures ContainsAnyCI(LowerAsciiString(s), words) <==> ContainsAnyCI(s, words)
  {
    forall w | w in words
      ensures ContainsCI(LowerAsciiString(s), w) <==> ContainsCI(s, w)
    {
      ContainsCILower(s, w);
    }
  }

  /** Decimal digit character of `d < 10`. */
  function DigitChar(d: nat): (c: char)
    requires d < 10
    ensures IsDigit(c)
  {
    ('0' as int + d) as char
  }

  /** Value of a digit character. */
  function DigitValue(c: char): (d: nat)
    requires IsDigit(c)
    ensures d < 10
  {
    c as int - '0' as int
  }

  /** `String(n)` for a non-negative integer: its decimal form without leading zeros. */
  function NatToString(n: nat): (r: string)
    ensures |r| >= 1 && AllDigits(r)
    ensures r[0] != '0' || n == 0
  {
    if n < 10 then [DigitChar(n)] else NatToString(n / 10) + [DigitChar(n % 10)]
  }

  /** `s.split(sep)`: the pieces between separators, always at least one. */
  function Split(s: string, sep: char): (parts: seq<string>)
    ensures |parts| >= 1
    ensures forall k :: 0 <= k < |parts| ==> sep !in parts[k]
    decreases |s|
  {
    if s == [] then [[]]
    else
      var rest := Split(s[1..], sep);
      if s[0] == sep then [[]] + rest else [[s[0]] + rest[0]] + rest[1..]
  }

  /** `parts.join(sep)`. */
  function Join(parts: seq<string>, sep: char): string
    requires |parts| >= 1
  {
    if |parts| == 1 then parts[0] else parts[0] + [sep] + Join(parts[1..], sep)
  }

  /** Splitting and joining again on the same separator gives back the string. */
  lemma {:induction false} JoinSplit(s: string, sep: char)
    ensures Join(Split(s, sep), sep) == s
    decreases |s|
  {
    if s != [] {
      var rest := Split(s[1..], sep);
      JoinSplit(s[1..], sep);
      if s[0] != sep {
        var parts := Split(s, sep);
        if |rest| == 1 {
          assert parts == [[s[0]] + rest[0]];
        } else {
          assert parts[1..] == rest[1..];
          assert Join(rest, sep) == rest[0] + [sep] + Join(rest[1..], sep);
        }
      }
    }
  }

  /**
    The first piece of a split is the text before the first separator; when
    the separator occurs, the remaining pieces are the split of the text after it.
  */
  lemma {:induction false} SplitHead(s: string, sep: char)
    ensures Split(s, sep)[0] == BeforeFirst(s, sep)
    ensures sep in s ==> |Split(s, sep)| >= 2 && Split(s, sep)[1..] == Split(AfterFirst(s, sep), sep)
    decreases |s|
  {
    if s != [] && s[0] != sep {
      SplitHead(s[1..], sep);
      FirstCons(s, sep);
    }
  }

  /** Past a first character that is not `c`, the text before and after the first `c` shift by one. */
  lemma FirstCons(s: string, c: char)
    requires s != [] && s[0] != c
    ensures BeforeFirst(s, c) == [s[0]] + BeforeFirst(s[1..], c)
    ensures AfterFirst(s, c) == AfterFirst(s[1..], c)
    ensures c in s <==> c in s[1..]
  {
    assert IndexOf(s, c) == 1 + IndexOf(s[1..], c);
    assert s == [s[0]] + s[1..];
  }

  /** Joining the pieces from `k` on gives a suffix of joining all of them. */
  lemma {:induction false} JoinSuffix(parts: seq<string>, sep: char, k: nat)
    requires 0 < k < |parts|
    ensures exists j :: 0 <= j <= |Join(parts, sep)| && Join(parts, sep)[j..] == Join(parts[k..], sep)
  {
    var whole := Join(parts, sep);
    var head := parts[0] + [sep];
    assert whole == head + Join(parts[1..], sep);
    if k == 1 {
      assert whole[|head|..] == Join(parts[1..], sep);
    } else {
      JoinSuffix(parts[1..], sep, k - 1);
      assert parts[1..][k - 1..] == parts[k..];
      var j :| 0 <= j <= |Join(parts[1..], sep)| && Join(parts[1..], sep)[j..] == Join(parts[k..], sep);
      assert whole[|head| + j..] == Join(parts[1..], sep)[j..];
    }
  }
}
