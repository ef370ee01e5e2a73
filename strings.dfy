/**
 * The JavaScript string operations the worker relies on, over `string` (= seq<char>):
 * `startsWith`, `indexOf`/`includes`, `split` with a non-empty string separator, and the
 * decimal rendering of a non-negative integer inside a template literal.
 */
module Strings {
  import opened Wrappers

  /** `s.startsWith(prefix)` */
  predicate StartsWith(s: string, prefix: string)
    ensures StartsWith(s, prefix) <==> |prefix| <= |s| && forall i :: 0 <= i < |prefix| ==> s[i] == prefix[i]
  {
    |prefix| <= |s| && s[..|prefix|] == prefix
  }

  /** `sub` occurs in `s` starting at position `i` */
  predicate OccursAt(s: string, sub: string, i: nat) {
    i + |sub| <= |s| && s[i..i + |sub|] == sub
  }

  lemma OccursAtShift(s: string, sub: string, i: nat)
    requires |s| > 0
    ensures OccursAt(s, sub, i + 1) <==> OccursAt(s[1..], sub, i)
  {
    if i + 1 + |sub| <= |s| {
      assert s[1..][i..i + |sub|] == s[i + 1..i + 1 + |sub|];
    }
  }

  /** `s.indexOf(sub)`, with `None` for JavaScript's -1: the first position where `sub` occurs */
  function IndexOf(s: string, sub: string): (r: Option<nat>)
    ensures r.Some? ==> OccursAt(s, sub, r.value)
    ensures r.Some? ==> forall j: nat :: j < r.value ==> !OccursAt(s, sub, j)
    ensures r.None? ==> forall j: nat :: !OccursAt(s, sub, j)
    decreases |s|
  {
    if |s| < |sub| then None
    else if StartsWith(s, sub) then Some(0)
    else
      match IndexOf(s[1..], sub)
      case None =>
        assert forall j: nat :: !OccursAt(s, sub, j) by {
          forall j: nat ensures !OccursAt(s, sub, j) {
            if j > 0 { OccursAtShift(s, sub, j - 1); }
          }
        }
        None
      case Some(i) =>
        assert OccursAt(s, sub, i + 1) by { OccursAtShift(s, sub, i); }
        assert forall j: nat :: j < i + 1 ==> !OccursAt(s, sub, j) by {
          forall j: nat | j < i + 1 ensures !OccursAt(s, sub, j) {
            if j > 0 { OccursAtShift(s, sub, j - 1); }
          }
        }
        Some(i + 1)
  }

  /** `s.includes(sub)` */
  predicate Includes(s: string, sub: string)
    ensures Includes(s, sub) <==> exists j: nat :: OccursAt(s, sub, j)
  {
    IndexOf(s, sub).Some?
  }

  /** Occurrences inside a prefix of `s` are occurrences in `s`. */
  lemma OccursInPrefix(s: string, sub: string, n: nat, j: nat)
    requires n <= |s|
    requires OccursAt(s[..n], sub, j)
    ensures OccursAt(s, sub, j) && j + |sub| <= n
  {
    assert s[..n][j..j + |sub|] == s[j..j + |sub|];
  }

  /**
   * `s.split(sep)` for a non-empty separator: the pieces between the successive
   * non-overlapping occurrences of `sep`, found from left to right.
   */
  function Split(s: string, sep: string): (parts: seq<string>)
    requires sep != []
    ensures |parts| >= 1
    ensures forall k :: 0 <= k < |parts| ==> !Includes(parts[k], sep)
    decreases |s|
  {
    match IndexOf(s, sep)
    case None => [s]
    case Some(i) =>
      var rest := Split(s[i + |sep|..], sep);
      assert !Includes(s[..i], sep) by {
        if Includes(s[..i], sep) {
          var j := IndexOf(s[..i], sep).value;
          OccursInPrefix(s, sep, i, j);
          assert false;
        }
      }
      [s[..i]] + rest
  }

  /** `parts.join(sep)`, the inverse of `Split` */
  function Join(parts: seq<string>, sep: string): (r: string)
    requires |parts| >= 1
    ensures StartsWith(r, parts[0])
    ensures |parts| >= 2 ==> OccursAt(r, sep, |parts[0]|)
  {
    if |parts| == 1 then parts[0] else parts[0] + sep + Join(parts[1..], sep)
  }

  lemma {:induction false} SplitJoin(s: string, sep: string)
    requires sep != []
    ensures Join(Split(s, sep), sep) == s
    decreases |s|
  {
    match IndexOf(s, sep)
    case None =>
      assert Split(s, sep) == [s];
    case Some(i) =>
      var rest := s[i + |sep|..];
      var parts := Split(s, sep);
      assert parts == [s[..i]] + Split(rest, sep);
      assert parts[0] == s[..i] && parts[1..] == Split(rest, sep);
      SplitJoin(rest, sep);
      assert Join(parts, sep) == s[..i] + sep + Join(Split(rest, sep), sep);
      assert s[i..i + |sep|] == sep;
      assert s == s[..i] + s[i..i + |sep|] + rest;
  }

  /** When `s` starts with `sep`, split yields an empty first piece, then the pieces of the rest. */
  lemma SplitAtStart(s: string, sep: string)
    requires sep != [] && StartsWith(s, sep)
    ensures Split(s, sep) == [""] + Split(s[|sep|..], sep)
    ensures |Split(s, sep)| >= 2 && Split(s, sep)[1] == Split(s[|sep|..], sep)[0]
  {
    assert OccursAt(s, sep, 0);
    assert IndexOf(s, sep) == Some(0);
  }

  /** The first piece of a split is a prefix that ends at the end of `s` or at the first separator. */
  lemma SplitFirst(s: string, sep: string)
    requires sep != []
    ensures var first := Split(s, sep)[0];
      StartsWith(s, first) && (|first| == |s| || OccursAt(s, sep, |first|))
    ensures forall j: nat :: j < |Split(s, sep)[0]| ==> !OccursAt(s, sep, j)
  {
    match IndexOf(s, sep)
    case None =>
      assert Split(s, sep)[0] == s;
    case Some(i) =>
      assert Split(s, sep)[0] == s[..i];
  }

  /** Occurrences in a suffix are the occurrences in the whole string, shifted. */
  lemma OccursInSuffix(s: string, sub: string, n: nat, i: nat)
    requires n <= |s|
    ensures OccursAt(s[n..], sub, i) <==> OccursAt(s, sub, n + i)
  {
    if n + i + |sub| <= |s| {
      assert s[n..][i..i + |sub|] == s[n + i..n + i + |sub|];
    }
  }

  /**
   * For `s` starting with `sep`, the second piece of the split is a prefix of the text after
   * `sep` and ends at the end of `s` or where `sep` next occurs.
   */
  lemma SplitSecondPiece(s: string, sep: string)
    requires sep != [] && StartsWith(s, sep)
    ensures |Split(s, sep)| >= 2
    ensures StartsWith(s[|sep|..], Split(s, sep)[1])
    ensures |sep| + |Split(s, sep)[1]| == |s| || OccursAt(s, sep, |sep| + |Split(s, sep)[1]|)
    ensures forall j: nat :: |sep| <= j < |sep| + |Split(s, sep)[1]| ==> !OccursAt(s, sep, j)
  {
    SecondPieceIsPrefix(s, sep);
    SecondPieceEnd(s, sep);
    SecondPieceFirst(s, sep);
  }

  /** No occurrence of `sep` starts inside the second piece: it ends at the first one. */
  lemma SecondPieceFirst(s: string, sep: string)
    requires sep != [] && StartsWith(s, sep)
    ensures |Split(s, sep)| >= 2
    ensures forall j: nat :: |sep| <= j < |sep| + |Split(s, sep)[1]| ==> !OccursAt(s, sep, j)
  {
    SplitAtStart(s, sep);
    var rest := s[|sep|..];
    SplitFirst(rest, sep);
    forall j: nat | |sep| <= j < |sep| + |Split(s, sep)[1]| ensures !OccursAt(s, sep, j) {
      OccursInSuffix(s, sep, |sep|, j - |sep|);
    }
  }

  lemma SecondPieceIsPrefix(s: string, sep: string)
    requires sep != [] && StartsWith(s, sep)
    ensures |Split(s, sep)| >= 2
    ensures StartsWith(s[|sep|..], Split(s, sep)[1])
  {
    SplitAtStart(s, sep);
    SplitFirst(s[|sep|..], sep);
  }

  lemma SecondPieceEnd(s: string, sep: string)
    requires sep != [] && StartsWith(s, sep)
    ensures |Split(s, sep)| >= 2
    ensures |sep| + |Split(s, sep)[1]| == |s| || OccursAt(s, sep, |sep| + |Split(s, sep)[1]|)
  {
    SplitAtStart(s, sep);
    var rest := s[|sep|..];
    SplitFirst(rest, sep);
    EndInSuffix(s, sep, Split(rest, sep)[0]);
  }

  lemma EndInSuffix(s: string, sep: string, r: string)
    requires |sep| <= |s|
    requires |sep| + |r| == |s| || OccursAt(s[|sep|..], sep, |r|)
    ensures |sep| + |r| == |s| || OccursAt(s, sep, |sep| + |r|)
  {
    if |sep| + |r| != |s| {
      OccursInSuffix(s, sep, |sep|, |r|);
    }
  }

  /** A separator of one character occurs exactly where that character stands. */
  lemma OccursAtChar(s: string, c: char, i: nat)
    ensures OccursAt(s, [c], i) <==> i < |s| && s[i] == c
  {
    if i < |s| { assert s[i..i + 1] == [s[i]]; }
  }

  lemma IncludesChar(s: string, c: char)
    ensures Includes(s, [c]) <==> c in s
  {
    if c in s {
      var i :| 0 <= i < |s| && s[i] == c;
      OccursAtChar(s, c, i);
    }
    if Includes(s, [c]) {
      OccursAtChar(s, c, IndexOf(s, [c]).value);
    }
  }

  /** Splitting on one character yields exactly two pieces iff that character occurs exactly once. */
  lemma {:induction false} SplitCharInTwo(s: string, c: char)
    ensures |Split(s, [c])| == 2 <==>
      exists i :: 0 <= i < |s| && s[i] == c && c !in s[..i] && c !in s[i + 1..]
  {
    var parts := Split(s, [c]);
    match IndexOf(s, [c])
    case None =>
      assert parts == [s];
      forall i | 0 <= i < |s| && s[i] == c ensures false {
        OccursAtChar(s, c, i);
      }
    case Some(i) =>
      OccursAtChar(s, c, i);
      var rest := s[i + 1..];
      assert parts == [s[..i]] + Split(rest, [c]);
      IncludesChar(s[..i], c);
      IncludesChar(rest, c);
      if |parts| == 2 {
        assert |Split(rest, [c])| == 1;
        assert IndexOf(rest, [c]).None?;
        assert !Includes(parts[0], [c]);
        assert !Includes(rest, [c]);
      }
      if c !in rest {
        assert Split(rest, [c]) == [rest];
      } else {
        assert Includes(rest, [c]);
        var j := IndexOf(rest, [c]).value;
        assert |Split(rest, [c])| >= 2;
        assert c in rest[j..];
        forall k | 0 <= k < |s| && s[k] == c && c !in s[..k] && c !in s[k + 1..] ensures false {
        }
      }
  }

  // Decimal rendering of non-negative integers, as `${n}` produces them.

  predicate IsDigit(c: char) {
    '0' <= c <= '9'
  }

  function DigitChar(d: nat): (c: char)
    requires d < 10
    ensures IsDigit(c) && c as int - '0' as int == d
  {
    ('0' as int + d) as char
  }

  /** `${n}` for a non-negative integer `n`: its digits, most significant first, no leading zero */
  function Decimal(n: nat): (s: string)
    ensures |s| >= 1
    ensures forall k :: 0 <= k < |s| ==> IsDigit(s[k])
    ensures s[0] == '0' ==> s == "0"
  {
    if n < 10 then [DigitChar(n)] else Decimal(n / 10) + [DigitChar(n % 10)]
  }

  /** The value a string of decimal digits denotes */
  function DecimalValue(s: string): nat
    requires forall k :: 0 <= k < |s| ==> IsDigit(s[k])
  {
    if s == [] then 0
    else assert IsDigit(s[|s| - 1]); DecimalValue(s[..|s| - 1]) * 10 + (s[|s| - 1] as int - '0' as int)
  }

  lemma {:induction false} DecimalRoundTrip(n: nat)
    ensures DecimalValue(Decimal(n)) == n
  {
    if n >= 10 {
      var s := Decimal(n);
      assert s[..|s| - 1] == Decimal(n / 10);
      DecimalRoundTrip(n / 10);
    }
  }

  lemma DecimalInjective(m: nat, n: nat)
    ensures Decimal(m) == Decimal(n) ==> m == n
  {
    DecimalRoundTrip(m);
    DecimalRoundTrip(n);
  }
}
