/** String operations of the JavaScript runtime that the site relies on:
    `trim`, `toLowerCase` (ASCII), `includes`, `split` with a non-empty
    separator, `join`, the decimal rendering of a non-negative integer, and
    `parseInt` without a radix. */
module JsText {
  import opened Options

  /** ECMAScript WhiteSpace and LineTerminator code points outside the
      U+2000..U+200A block. */
  const WhitespaceChars: set<char> :=
    {' ', '\t', '\n', '\U{000B}', '\U{000C}', '\r', '\U{00A0}', '\U{1680}',
     '\U{2028}', '\U{2029}', '\U{202F}', '\U{205F}', '\U{3000}', '\U{FEFF}'}

  /** What `trim` removes. */
  predicate IsWhitespace(c: char)
  {
    c in WhitespaceChars || ('\U{2000}' <= c <= '\U{200A}')
  }

  /** No whitespace at either end: what `trim` returns. */
  predicate IsTrimmed(s: string)
  {
    s == [] || (!IsWhitespace(s[0]) && !IsWhitespace(s[|s| - 1]))
  }

  function TrimStart(s: string): (r: string)
    ensures |r| <= |s| && r == s[|s| - |r|..]
    ensures forall k :: 0 <= k < |s| - |r| ==> IsWhitespace(s[k])
    ensures r != [] ==> !IsWhitespace(r[0])
  {
    if |s| > 0 && IsWhitespace(s[0]) then TrimStart(s[1..]) else s
  }

  function TrimEnd(s: string): (r: string)
    ensures |r| <= |s| && r == s[..|r|]
    ensures forall k :: |r| <= k < |s| ==> IsWhitespace(s[k])
    ensures r != [] ==> !IsWhitespace(r[|r| - 1])
  {
    if |s| > 0 && IsWhitespace(s[|s| - 1]) then TrimEnd(s[..|s| - 1]) else s
  }

  /** The number of whitespace characters in front of the first other one. */
  function LeadingWhitespace(s: string): (n: nat)
    ensures n <= |s|
  {
    |s| - |TrimStart(s)|
  }

  /** `s.trim()`: the middle slice of `s` without whitespace at its ends
      (which slice it is, JsText.TrimSlice states). */
  function Trim(s: string): (r: string)
    ensures IsTrimmed(r)
    ensures |r| <= |s|
  {
    var t := TrimStart(s);
    var r := TrimEnd(t);
    assert r != [] ==> r[0] == t[0];
    r
  }

  /** What `trim` returns is the slice of `s` after its leading whitespace;
      everything before and after that slice is whitespace. TrimUnique shows
      that, with `IsTrimmed`, this leaves no other candidate. */
  lemma TrimSlice(s: string)
    ensures LeadingWhitespace(s) + |Trim(s)| <= |s|
    ensures Trim(s) == s[LeadingWhitespace(s)..LeadingWhitespace(s) + |Trim(s)|]
    ensures forall k :: 0 <= k < LeadingWhitespace(s) ==> IsWhitespace(s[k])
    ensures forall k :: LeadingWhitespace(s) + |Trim(s)| <= k < |s| ==> IsWhitespace(s[k])
  {
    var t := TrimStart(s);
    var r := TrimEnd(t);
    assert Trim(s) == r;
    var n := |s| - |t|;
    assert t == s[n..];
    assert r == t[..|r|];
    forall k | n + |r| <= k < |s| ensures IsWhitespace(s[k]) {
      assert s[k] == t[k - n];
    }
  }

  /** Only one slice fits that description: any slice of `s` that has no
      whitespace at its ends and only whitespace around it is `Trim(s)`. */
  lemma TrimUnique(s: string, i: nat, j: nat)
    requires i <= j <= |s|
    requires forall k :: 0 <= k < i ==> IsWhitespace(s[k])
    requires forall k :: j <= k < |s| ==> IsWhitespace(s[k])
    requires IsTrimmed(s[i..j])
    ensures s[i..j] == Trim(s)
  {
    TrimSlice(s);
    var lo, hi := LeadingWhitespace(s), LeadingWhitespace(s) + |Trim(s)|;
    var r := Trim(s);
    if i < j {
      assert s[i] == s[i..j][0] && s[j - 1] == s[i..j][j - i - 1];
      assert lo <= i < hi && lo < j <= hi;
      assert r[0] == s[lo] && r[|r| - 1] == s[hi - 1];
      assert i == lo && j == hi;
    }
  }

  lemma {:induction false} TrimStartOfTrimmed(s: string)
    requires s == [] || !IsWhitespace(s[0])
    ensures TrimStart(s) == s
  {
  }

  lemma {:induction false} TrimEndOfTrimmed(s: string)
    requires s == [] || !IsWhitespace(s[|s| - 1])
    ensures TrimEnd(s) == s
  {
  }

  /** Trimming a trimmed string changes nothing. */
  lemma {:induction false} TrimIdempotent(s: string)
    requires IsTrimmed(s)
    ensures Trim(s) == s
  {
    TrimStartOfTrimmed(s);
    TrimEndOfTrimmed(s);
  }

  /** A leading whitespace character never survives `trim`. */
  lemma {:induction false} TrimLeadingWhitespace(c: char, s: string)
    requires IsWhitespace(c)
    ensures Trim([c] + s) == Trim(s)
  {
    assert ([c] + s)[1..] == s;
  }

  /** `trim` only removes characters: every character it keeps was there. */
  lemma TrimMembers(s: string, c: char)
    ensures c in Trim(s) ==> c in s
  {
    var t := TrimStart(s);
    var r := TrimEnd(t);
    if c in r {
      var i :| 0 <= i < |r| && r[i] == c;
      assert t[i] == c;
      assert s[|s| - |t| + i] == c;
    }
  }

  /** `c.toLowerCase()` on the ASCII range; other characters are kept. */
  function LowerChar(c: char): char
  {
    if 'A' <= c <= 'Z' then (c as int + 32) as char else c
  }

  function LowerAscii(s: string): (r: string)
    ensures |r| == |s|
    ensures forall k :: 0 <= k < |s| ==> r[k] == LowerChar(s[k])
  {
    seq(|s|, k requires 0 <= k < |s| => LowerChar(s[k]))
  }

  predicate IsPrefix(p: string, s: string)
  {
    |p| <= |s| && s[..|p|] == p
  }

  /** `sub` occurs in `s` starting at index `i`. */
  predicate OccursAt(s: string, sub: string, i: int)
  {
    0 <= i <= |s| - |sub| && s[i..i + |sub|] == sub
  }

  /** `s.includes(sub)`: `sub` occurs somewhere in `s`. */
  predicate Includes(s: string, sub: string)
  {
    exists i | 0 <= i <= |s| - |sub| :: OccursAt(s, sub, i)
  }

  /** `s.split(sep)` for a non-empty separator: the pieces between the
      non-overlapping occurrences of `sep`, found from left to right. */
  function Split(s: string, sep: string): (r: seq<string>)
    requires |sep| > 0
    ensures |r| >= 1
    decreases |s|
  {
    if |s| < |sep| then [s]
    else if s[..|sep|] == sep then [""] + Split(s[|sep|..], sep)
    else
      var rest := Split(s[1..], sep);
      [[s[0]] + rest[0]] + rest[1..]
  }

  /** `pieces.join(sep)`. */
  function Join(pieces: seq<string>, sep: string): string
  {
    if |pieces| == 0 then ""
    else if |pieces| == 1 then pieces[0]
    else pieces[0] + sep + Join(pieces[1..], sep)
  }

  /** Number of non-overlapping occurrences of `sep` in `s`, counted from the left. */
  function CountOccurrences(s: string, sep: string): nat
    requires |sep| > 0
    decreases |s|
  {
    if |s| < |sep| then 0
    else if s[..|sep|] == sep then 1 + CountOccurrences(s[|sep|..], sep)
    else CountOccurrences(s[1..], sep)
  }

  lemma JoinCons(p: string, rest: seq<string>, sep: string)
    requires |rest| >= 1
    ensures Join([p] + rest, sep) == p + sep + Join(rest, sep)
  {
    assert ([p] + rest)[1..] == rest;
  }

  /** Joining the pieces of a split with the same separator gives back the text. */
  lemma {:induction false} JoinSplit(s: string, sep: string)
    requires |sep| > 0
    ensures Join(Split(s, sep), sep) == s
    decreases |s|
  {
    if |s| < |sep| {
    } else if s[..|sep|] == sep {
      var tail := s[|sep|..];
      var rest := Split(tail, sep);
      assert Split(s, sep) == [""] + rest;
      JoinSplit(tail, sep);
      JoinCons("", rest, sep);
      assert s == sep + tail;
    } else {
      var tail := s[1..];
      var rest := Split(tail, sep);
      assert Split(s, sep) == [[s[0]] + rest[0]] + rest[1..];
      JoinSplit(tail, sep);
      JoinSplitStep(s[0], rest, sep);
      assert s == [s[0]] + tail;
    }
  }

  lemma JoinSplitStep(c: char, rest: seq<string>, sep: string)
    requires |rest| >= 1
    ensures Join([[c] + rest[0]] + rest[1..], sep) == [c] + Join(rest, sep)
  {
    if |rest| == 1 {
    } else {
      assert rest == [rest[0]] + rest[1..];
      JoinCons(rest[0], rest[1..], sep);
      JoinCons([c] + rest[0], rest[1..], sep);
    }
  }

  /** A split has one more piece than there are separators. */
  lemma {:induction false} SplitCount(s: string, sep: string)
    requires |sep| > 0
    ensures |Split(s, sep)| == CountOccurrences(s, sep) + 1
    decreases |s|
  {
    if |s| < |sep| {
    } else if s[..|sep|] == sep {
      SplitCount(s[|sep|..], sep);
    } else {
      SplitCount(s[1..], sep);
    }
  }

  /** The first piece of a split is a prefix of the text. */
  lemma {:induction false} SplitFirstIsPrefix(s: string, sep: string)
    requires |sep| > 0
    ensures IsPrefix(Split(s, sep)[0], s)
    decreases |s|
  {
    if |s| < |sep| {
    } else if s[..|sep|] == sep {
    } else {
      SplitFirstIsPrefix(s[1..], sep);
      var p := Split(s[1..], sep)[0];
      assert s[..|p| + 1] == [s[0]] + s[1..][..|p|];
    }
  }

  /** No piece of a split contains the separator. */
  lemma {:induction false} SplitPiecesFree(s: string, sep: string)
    requires |sep| > 0
    ensures forall k :: 0 <= k < |Split(s, sep)| ==> !Includes(Split(s, sep)[k], sep)
    decreases |s|
  {
    if |s| < |sep| {
      assert !OccursAt(s, sep, 0);
    } else if s[..|sep|] == sep {
      var rest := Split(s[|sep|..], sep);
      assert Split(s, sep) == [""] + rest;
      SplitPiecesFree(s[|sep|..], sep);
      assert !Includes("", sep) by {
        assert !OccursAt("", sep, 0);
      }
      FreeCons("", rest, sep);
    } else {
      var rest := Split(s[1..], sep);
      assert Split(s, sep) == [[s[0]] + rest[0]] + rest[1..];
      SplitPiecesFree(s[1..], sep);
      var q := [s[0]] + rest[0];
      assert !Includes(q, sep) by {
        SplitFirstIsPrefix(s[1..], sep);
        assert IsPrefix(q, s) by {
          assert s[..|q|] == [s[0]] + s[1..][..|rest[0]|];
        }
        assert |q| >= |sep| ==> q[..|sep|] == s[..|sep|];
        ConsFree(s[0], rest[0], sep);
      }
      assert forall k :: 0 <= k < |rest[1..]| ==> !Includes(rest[1..][k], sep) by {
        forall k | 0 <= k < |rest[1..]| ensures !Includes(rest[1..][k], sep) {
          assert rest[1..][k] == rest[k + 1];
        }
      }
      FreeCons(q, rest[1..], sep);
    }
  }

  /** A separator-free piece in front of separator-free pieces. */
  lemma FreeCons(p: string, ps: seq<string>, sep: string)
    requires !Includes(p, sep)
    requires forall k :: 0 <= k < |ps| ==> !Includes(ps[k], sep)
    ensures forall k :: 0 <= k < |[p] + ps| ==> !Includes(([p] + ps)[k], sep)
  {
    forall k | 0 <= k < |[p] + ps| ensures !Includes(([p] + ps)[k], sep) {
      if k > 0 {
        assert ([p] + ps)[k] == ps[k - 1];
      }
    }
  }

  /** A character in front of separator-free text adds an occurrence only at index 0. */
  lemma ConsFree(c: char, p: string, sep: string)
    requires |sep| > 0 && !Includes(p, sep)
    requires |p| + 1 >= |sep| ==> ([c] + p)[..|sep|] != sep
    ensures !Includes([c] + p, sep)
  {
    var q := [c] + p;
    forall i | 0 <= i <= |q| - |sep|
      ensures !OccursAt(q, sep, i)
    {
      if i > 0 {
        assert q[i..i + |sep|] == p[i - 1..i - 1 + |sep|];
        assert !OccursAt(p, sep, i - 1);
      }
    }
  }

  /** Text without the separator splits into itself alone. */
  lemma {:induction false} SplitWithoutSeparator(s: string, sep: string)
    requires |sep| > 0
    requires !Includes(s, sep)
    ensures Split(s, sep) == [s]
    decreases |s|
  {
    if |s| < |sep| {
    } else {
      assert !OccursAt(s, sep, 0);
      assert !Includes(s[1..], sep) by {
        forall i | 0 <= i <= |s[1..]| - |sep|
          ensures !OccursAt(s[1..], sep, i)
        {
          assert s[1..][i..i + |sep|] == s[i + 1..i + 1 + |sep|];
          assert !OccursAt(s, sep, i + 1);
        }
      }
      SplitWithoutSeparator(s[1..], sep);
      assert [s[0]] + s[1..] == s;
    }
  }

  /** A one-character separator occurs exactly where that character does. */
  lemma IncludesChar(s: string, c: char)
    ensures Includes(s, [c]) <==> c in s
  {
    if c in s {
      var i :| 0 <= i < |s| && s[i] == c;
      assert s[i..i + 1] == [c];
      assert OccursAt(s, [c], i);
    }
    if Includes(s, [c]) {
      var i :| 0 <= i <= |s| - 1 && OccursAt(s, [c], i);
      assert s[i] == s[i..i + 1][0];
    }
  }

  /** With a one-character separator, the first piece ends at the first separator. */
  lemma {:induction false} SplitAtFirst(a: string, c: char, b: string)
    requires c !in a
    ensures Split(a + [c] + b, [c]) == [a] + Split(b, [c])
    decreases |a|
  {
    var s := a + [c] + b;
    if |a| == 0 {
      assert s == [c] + b;
      assert s[..1] == [c];
      assert s[1..] == b;
    } else {
      assert s[..1] == [a[0]];
      assert s[1..] == a[1..] + [c] + b;
      SplitAtFirst(a[1..], c, b);
      assert [a[0]] + a[1..] == a;
    }
  }

  /** With a one-character separator that no piece contains, split undoes join. */
  lemma {:induction false} SplitJoin(pieces: seq<string>, c: char)
    requires |pieces| >= 1
    requires forall k :: 0 <= k < |pieces| ==> c !in pieces[k]
    ensures Split(Join(pieces, [c]), [c]) == pieces
    decreases |pieces|
  {
    if |pieces| == 1 {
      IncludesChar(pieces[0], c);
      SplitWithoutSeparator(pieces[0], [c]);
    } else {
      SplitJoin(pieces[1..], c);
      SplitAtFirst(pieces[0], c, Join(pieces[1..], [c]));
      assert pieces == [pieces[0]] + pieces[1..];
    }
  }

  /** The last piece of a split: what `s.split(sep).pop()` returns. */
  function LastPiece(s: string, sep: string): (r: string)
    requires |sep| > 0
  {
    var pieces := Split(s, sep);
    pieces[|pieces| - 1]
  }

  lemma {:induction false} JoinSuffix(pieces: seq<string>, sep: string)
    requires |pieces| >= 2
    ensures |Join(pieces, sep)| >= |sep| + |pieces[|pieces| - 1]|
    ensures Join(pieces, sep)[|Join(pieces, sep)| - |sep| - |pieces[|pieces| - 1]|..]
            == sep + pieces[|pieces| - 1]
    decreases |pieces|
  {
    if |pieces| > 2 {
      JoinSuffix(pieces[1..], sep);
    }
  }

  /** `name.split('.').pop()` is the text after the last dot, or the whole name. */
  lemma {:induction false} LastPieceIsSuffix(s: string, c: char)
    ensures c !in LastPiece(s, [c])
    ensures c !in s ==> LastPiece(s, [c]) == s
    ensures c in s ==> (|LastPiece(s, [c])| < |s|
            && s[|s| - |LastPiece(s, [c])| - 1..] == [c] + LastPiece(s, [c]))
  {
    var pieces := Split(s, [c]);
    var last := pieces[|pieces| - 1];
    SplitPiecesFree(s, [c]);
    assert !Includes(last, [c]);
    IncludesChar(last, c);
    JoinSplit(s, [c]);
    if |pieces| == 1 {
      assert s == last;
    } else {
      JoinSuffix(pieces, [c]);
      assert s[|s| - |last| - 1] == c;
    }
  }

  /** Decimal digits of a non-negative integer, as `String(n)` renders it. */
  function Decimal(n: nat): (r: string)
    ensures |r| >= 1
    ensures forall k :: 0 <= k < |r| ==> '0' <= r[k] <= '9'
    ensures |r| > 1 ==> r[0] != '0'
  {
    if n < 10 then [('0' as int + n) as char]
    else Decimal(n / 10) + [('0' as int + n % 10) as char]
  }

  /** The value of a string of decimal digits. */
  function DigitsValue(s: string): nat
    requires forall k :: 0 <= k < |s| ==> '0' <= s[k] <= '9'
  {
    if s == [] then 0 else DigitsValue(s[..|s| - 1]) * 10 + (s[|s| - 1] as int - '0' as int)
  }

  /** `Decimal` is read back by the digit value: the rendering is faithful. */
  lemma {:induction false} DecimalValue(n: nat)
    ensures DigitsValue(Decimal(n)) == n
  {
    if n >= 10 {
      DecimalValue(n / 10);
      var d := Decimal(n / 10);
      var r := Decimal(n);
      assert r[..|r| - 1] == d;
    }
  }

  /** The value of `c` as a digit of base `radix` (10 or 16), or -1 when it is not one. */
  function DigitIn(c: char, radix: int): int
  {
    if '0' <= c <= '9' then c as int - '0' as int
    else if radix == 16 && 'a' <= c <= 'f' then c as int - 'a' as int + 10
    else if radix == 16 && 'A' <= c <= 'F' then c as int - 'A' as int + 10
    else -1
  }

  predicate AllDigitsIn(s: string, radix: int)
  {
    forall k :: 0 <= k < |s| ==> DigitIn(s[k], radix) >= 0
  }

  /** The longest prefix of `s` made of digits of `radix`. */
  function DigitRun(s: string, radix: int): (r: string)
    ensures r <= s && AllDigitsIn(r, radix)
    ensures |r| < |s| ==> DigitIn(s[|r|], radix) < 0
  {
    if s != [] && DigitIn(s[0], radix) >= 0 then [s[0]] + DigitRun(s[1..], radix) else []
  }

  /** The value of a run of digits, most significant first. */
  function RunValue(ds: string, radix: int): int
    requires AllDigitsIn(ds, radix)
  {
    if ds == [] then 0 else RunValue(ds[..|ds| - 1], radix) * radix + DigitIn(ds[|ds| - 1], radix)
  }

  /** The digits after the sign: a `0x` or `0X` prefix selects base 16,
      then the longest run of digits counts. No digit at all is `NaN`,
      written `None`. */
  function Unsigned(u: string): Option<int>
  {
    var hex := |u| >= 2 && u[0] == '0' && (u[1] == 'x' || u[1] == 'X');
    var radix := if hex then 16 else 10;
    var ds := DigitRun(if hex then u[2..] else u, radix);
    if ds == [] then None else Some(RunValue(ds, radix))
  }

  function Negate(v: Option<int>): Option<int>
  {
    if v.None? then None else Some(-v.value)
  }

  /** `parseInt(s)` with no radix: leading whitespace is skipped, then an
      optional sign is read before the digits. */
  function ParseInt(s: string): Option<int>
  {
    var t := TrimStart(s);
    if t != [] && t[0] == '-' then Negate(Unsigned(t[1..]))
    else if t != [] && t[0] == '+' then Unsigned(t[1..])
    else Unsigned(t)
  }

  /** A run of decimal digits has the value `DigitsValue` gives it. */
  lemma {:induction false} RunValueDecimal(ds: string)
    requires forall k :: 0 <= k < |ds| ==> '0' <= ds[k] <= '9'
    ensures AllDigitsIn(ds, 10) && RunValue(ds, 10) == DigitsValue(ds)
  {
    if ds != [] {
      RunValueDecimal(ds[..|ds| - 1]);
    }
  }

  /** A string of digits is its own longest digit run. */
  lemma {:induction false} DigitRunAll(ds: string, radix: int)
    requires AllDigitsIn(ds, radix)
    ensures DigitRun(ds, radix) == ds
  {
    if ds != [] {
      DigitRunAll(ds[1..], radix);
      assert [ds[0]] + ds[1..] == ds;
    }
  }

  /** The digits of `String(n)` read back as `n`. */
  lemma UnsignedDecimal(n: nat)
    ensures Unsigned(Decimal(n)) == Some(n)
  {
    var d := Decimal(n);
    RunValueDecimal(d);
    DigitRunAll(d, 10);
    DecimalValue(n);
  }

  /** Text that starts with a digit is read as it stands. */
  lemma ParseIntAtDigit(t: string, v: int)
    requires t != [] && '0' <= t[0] <= '9' && Unsigned(t) == Some(v)
    ensures ParseInt(t) == Some(v)
  {
    SignOrDigitNotWhitespace(t[0]);
    TrimStartOfTrimmed(t);
  }

  /** A minus sign directly in front of the digits negates them. */
  lemma ParseIntAtMinus(t: string, v: int)
    requires Unsigned(t) == Some(v)
    ensures ParseInt("-" + t) == Some(-v)
  {
    var m := "-" + t;
    SignOrDigitNotWhitespace(m[0]);
    TrimStartOfTrimmed(m);
    assert m[1..] == t;
  }

  lemma SignOrDigitNotWhitespace(c: char)
    requires c == '-' || '0' <= c <= '9'
    ensures !IsWhitespace(c)
  {
  }

  /** `parseInt` reads back what `String(n)` writes, with or without a minus sign. */
  lemma ParseIntDecimal(n: nat)
    ensures ParseInt(Decimal(n)) == Some(n)
    ensures ParseInt("-" + Decimal(n)) == Some(-(n as int))
  {
    UnsignedDecimal(n);
    ParseIntAtDigit(Decimal(n), n);
    ParseIntAtMinus(Decimal(n), n);
  }

  /** Text with no digit after the whitespace and no sign before it is `NaN`. */
  lemma ParseIntNoDigits(s: string)
    requires TrimStart(s) == [] || (DigitIn(TrimStart(s)[0], 10) < 0 && TrimStart(s)[0] != '-' && TrimStart(s)[0] != '+')
    ensures ParseInt(s) == None
  {
  }
}
