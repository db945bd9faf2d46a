/** The JavaScript primitives the Animalia code is built from:
    `String.prototype.split` with a one-character separator, indexing past
    the end of an array (`undefined`), `String.prototype.substring` with its
    clamping, `Array.prototype.slice` with relative indices, and how a
    template literal renders `undefined` and an integral number. A string is
    a sequence of characters (Unicode scalar values), not of UTF-16 code
    units; the two agree on the digit strings an EID is made of. */
module JsText {
  import opened Wrappers

  function Min(a: int, b: int): int { if a <= b then a else b }

  function Max(a: int, b: int): int { if a <= b then b else a }

  // ---------------------------------------------------------------------
  // split
  // ---------------------------------------------------------------------

  /** `s.split(c)`: the pieces of `s` between the occurrences of `c`, in order.
      There is always at least one piece, and no piece contains `c`. */
  function Split(s: string, c: char): (parts: seq<string>)
    ensures |parts| >= 1
    ensures forall k :: 0 <= k < |parts| ==> c !in parts[k]
    decreases |s|
  {
    if s == [] then [[]]
    else
      var rest := Split(s[1..], c);
      if s[0] == c then [[]] + rest
      else [[s[0]] + rest[0]] + rest[1..]
  }

  /** `parts.join(c)`. */
  function Join(parts: seq<string>, c: char): string
    requires |parts| >= 1
  {
    if |parts| == 1 then parts[0] else parts[0] + [c] + Join(parts[1..], c)
  }

  /** Splitting loses nothing: joining the pieces with the separator gives `s` back. */
  lemma {:induction false} SplitJoin(s: string, c: char)
    ensures Join(Split(s, c), c) == s
    decreases |s|
  {
    if s != [] {
      var rest := Split(s[1..], c);
      SplitJoin(s[1..], c);
      if s[0] == c {
        assert Split(s, c) == [[]] + rest;
        assert Split(s, c)[1..] == rest;
        assert s == [] + [c] + s[1..];
      } else {
        var parts := [[s[0]] + rest[0]] + rest[1..];
        assert Split(s, c) == parts;
        if |rest| == 1 {
          assert Join(parts, c) == [s[0]] + rest[0];
        } else {
          assert parts[1..] == rest[1..];
          assert Join(parts, c) == [s[0]] + rest[0] + [c] + Join(rest[1..], c);
          assert Join(rest, c) == rest[0] + [c] + Join(rest[1..], c);
        }
        assert s == [s[0]] + s[1..];
      }
    }
  }

  /** The text of `s` before its first `c` (all of `s` when there is none). */
  function TakeUntil(s: string, c: char): (r: string)
    ensures c !in r
    ensures |r| <= |s| && r == s[..|r|]
    ensures |r| < |s| ==> s[|r|] == c
  {
    if s == [] || s[0] == c then [] else [s[0]] + TakeUntil(s[1..], c)
  }

  /** The text of `s` after its first `c`. */
  function DropThrough(s: string, c: char): (r: string)
    requires c in s
    ensures |r| < |s| && r == s[|s| - |r|..]
    ensures s == TakeUntil(s, c) + [c] + r
  {
    if s[0] == c then s[1..] else DropThrough(s[1..], c)
  }

  /** How the first two pieces of a split look: piece 0 is the text before
      the first separator; a piece 1 exists exactly when the separator
      occurs, and the pieces from 1 on are the split of the text after it. */
  lemma {:induction false} SplitHead(s: string, c: char)
    ensures Split(s, c)[0] == TakeUntil(s, c)
    ensures c in s <==> |Split(s, c)| > 1
    ensures c in s ==> Split(s, c)[1..] == Split(DropThrough(s, c), c)
    decreases |s|
  {
    if s != [] {
      SplitHead(s[1..], c);
      var rest := Split(s[1..], c);
      if s[0] == c {
        assert Split(s, c) == [[]] + rest;
      } else {
        assert Split(s, c) == [[s[0]] + rest[0]] + rest[1..];
        assert c in s <==> c in s[1..];
      }
    }
  }

  /** Piece 1 of a split, when there is one, is the text between the first
      and the second separator (or the end). */
  lemma SecondPiece(s: string, c: char)
    ensures |Split(s, c)| > 1 <==> c in s
    ensures c in s ==> Split(s, c)[1] == TakeUntil(DropThrough(s, c), c)
  {
    SplitHead(s, c);
    if c in s {
      SplitHead(DropThrough(s, c), c);
      assert Split(s, c)[1] == Split(DropThrough(s, c), c)[0];
    }
  }

  /** `TakeUntil` on text that starts with a separator-free part. */
  lemma {:induction false} TakeUntilAppend(a: string, b: string, c: char)
    requires c !in a
    ensures TakeUntil(a + b, c) == a + TakeUntil(b, c)
    decreases |a|
  {
    if a != [] {
      assert a == [a[0]] + a[1..];
      assert a[0] != c && c !in a[1..];
      assert (a + b)[0] == a[0] && (a + b)[1..] == a[1..] + b;
      TakeUntilAppend(a[1..], b, c);
      calc {
        TakeUntil(a + b, c);
        [a[0]] + TakeUntil(a[1..] + b, c);
        [a[0]] + (a[1..] + TakeUntil(b, c));
        a + TakeUntil(b, c);
      }
    } else {
      assert a + b == b;
    }
  }

  /** Text that starts with a separator-free part followed by the separator. */
  lemma SeparatorAfter(a: string, b: string, c: char)
    requires c !in a
    ensures c in a + [c] + b
    ensures TakeUntil(a + [c] + b, c) == a
    ensures DropThrough(a + [c] + b, c) == b
  {
    assert (a + [c] + b)[|a|] == c;
    TakeUntilAppend(a, [c] + b, c);
    assert a + [c] + b == a + ([c] + b);
    var s := a + [c] + b;
    assert s == TakeUntil(s, c) + [c] + DropThrough(s, c);
  }

  /** Every character of the text before a separator occurs in the text. */
  lemma {:induction false} TakeUntilInside(s: string, c: char, x: char)
    ensures x in TakeUntil(s, c) ==> x in s
  {
    if s != [] && s[0] != c && x != s[0] {
      TakeUntilInside(s[1..], c, x);
    }
  }

  /** Every character of the text after a separator occurs in the text. */
  lemma {:induction false} DropThroughInside(s: string, c: char, x: char)
    requires c in s
    ensures x in DropThrough(s, c) ==> x in s
  {
    if s[0] != c {
      assert c in s[1..];
      DropThroughInside(s[1..], c, x);
    }
  }

  // ---------------------------------------------------------------------
  // indexing, substring, slice
  // ---------------------------------------------------------------------

  /** `xs[i]`, where an index past the end reads as `undefined`. */
  function At<T>(xs: seq<T>, i: nat): Option<T> {
    if i < |xs| then Some(xs[i]) else None
  }

  function Clamp(i: int, len: nat): (r: nat)
    ensures r <= len
    ensures 0 <= i <= len ==> r == i
  {
    if i < 0 then 0 else if i > len then len else i
  }

  /** `s.substring(start, end)`: both ends are clamped to `[0, |s|]` and
      swapped when the start lies after the end. */
  function Substring(s: string, start: int, end: int): (r: string)
    ensures 0 <= start <= end ==> r == s[Min(start, |s|)..Min(end, |s|)]
    ensures 0 <= start <= end ==> |r| <= end - start
  {
    var a, b := Clamp(start, |s|), Clamp(end, |s|);
    if a <= b then s[a..b] else s[b..a]
  }

  /** How `slice` reads an index: a negative one counts back from the end;
      the outcome is clamped to `[0, len]`. */
  function RelativeIndex(i: int, len: nat): nat {
    if i < 0 then (if len + i < 0 then 0 else len + i) else (if i < len then i else len)
  }

  /** `s.slice(start, end)`: the elements from the start index up to (not
      including) the end index, both read as `RelativeIndex`, and nothing
      when the end comes first. */
  function Slice<T>(s: seq<T>, start: int, end: int): (r: seq<T>)
    ensures |r| == Max(RelativeIndex(end, |s|) - RelativeIndex(start, |s|), 0)
    ensures forall k :: 0 <= k < |r| ==> r[k] == s[RelativeIndex(start, |s|) + k]
  {
    var lo, hi := RelativeIndex(start, |s|), RelativeIndex(end, |s|);
    if lo < hi then s[lo..hi] else []
  }

  // ---------------------------------------------------------------------
  // template literals
  // ---------------------------------------------------------------------

  /** `${x}` for a string that may be `undefined`. */
  function RenderOptional(x: Option<string>): string {
    match x
    case None => "undefined"
    case Some(s) => s
  }

  function DigitChar(d: nat): (ch: char)
    requires d < 10
    ensures '0' <= ch <= '9'
  {
    ('0' as int + d) as char
  }

  /** The decimal digits of `n`, most significant first, without leading zeros. */
  function NatToString(n: nat): (r: string)
    ensures |r| >= 1
    ensures forall k :: 0 <= k < |r| ==> '0' <= r[k] <= '9'
    ensures n >= 10 ==> r[0] != '0'
  {
    if n < 10 then [DigitChar(n)] else NatToString(n / 10) + [DigitChar(n % 10)]
  }

  /** The value of a string of decimal digits. */
  function DigitsValue(s: string): nat
    requires forall k :: 0 <= k < |s| ==> '0' <= s[k] <= '9'
  {
    if s == [] then 0 else DigitsValue(s[..|s| - 1]) * 10 + (s[|s| - 1] as int - '0' as int)
  }

  /** Reading the digits back gives the number. */
  lemma {:induction false} NatToStringValue(n: nat)
    ensures DigitsValue(NatToString(n)) == n
    decreases n
  {
    if n >= 10 {
      NatToStringValue(n / 10);
      var r := NatToString(n);
      assert r[..|r| - 1] == NatToString(n / 10);
    }
  }

  /** `${n}` for an integral number (written without exponent). */
  function IntToString(n: int): (r: string)
    ensures |r| >= 1
    ensures ' ' !in r && '/' !in r && ')' !in r
  {
    if n < 0 then "-" + NatToString(-n) else NatToString(n)
  }
}
