/** The string routines the engine relies on: decimal rendering and parsing of
    the numbers it puts into text fields, Python-style `lstrip`/`rstrip`/`split`
    and `replace`, and the sorted de-duplication `np.unique` performs on labels. */
module Text {
  import opened Wrappers

  // ---------------------------------------------------------------- numbers

  predicate IsDigit(c: char)
  {
    '0' <= c <= '9'
  }

  function DigitChar(d: nat): (c: char)
    requires d < 10
    ensures IsDigit(c)
  {
    ['0', '1', '2', '3', '4', '5', '6', '7', '8', '9'][d]
  }

  function DigitValue(c: char): (d: nat)
    requires IsDigit(c)
    ensures d < 10
  {
    (c as int - '0' as int)
  }

  /** Python's `str` of a non-negative integer. */
  function NatText(n: nat): (s: string)
    ensures |s| > 0
    ensures forall i :: 0 <= i < |s| ==> IsDigit(s[i])
  {
    if n < 10 then [DigitChar(n)] else NatText(n / 10) + [DigitChar(n % 10)]
  }

  /** Python's `str` of an integer: a minus sign before the magnitude. */
  function IntText(i: int): string
  {
    if i < 0 then "-" + NatText(-i) else NatText(i)
  }

  function DigitsValue(s: string): nat
    requires forall i :: 0 <= i < |s| ==> IsDigit(s[i])
  {
    if s == [] then 0 else DigitsValue(s[..|s| - 1]) * 10 + DigitValue(s[|s| - 1])
  }

  /** `int(s)` for a string of decimal digits; `None` for anything else. */
  function ParseNat(s: string): Option<nat>
  {
    if |s| > 0 && forall i :: 0 <= i < |s| ==> IsDigit(s[i]) then Some(DigitsValue(s)) else None
  }

  /** `int(s)` for an optionally negative decimal integer. */
  function ParseInt(s: string): Option<int>
  {
    if |s| > 0 && s[0] == '-' then
      match ParseNat(s[1..])
      case Some(n) => Some(-(n as int))
      case None => None
    else
      match ParseNat(s)
      case Some(n) => Some(n)
      case None => None
  }

  lemma DigitRoundTrip(d: nat)
    requires d < 10
    ensures DigitValue(DigitChar(d)) == d
  {
  }

  lemma {:induction false} ParseNatText(n: nat)
    ensures ParseNat(NatText(n)) == Some(n)
    ensures DigitsValue(NatText(n)) == n
  {
    var s := NatText(n);
    if n < 10 {
      DigitRoundTrip(n);
      assert s[..|s| - 1] == [];
      assert DigitsValue(s) == n;
    } else {
      ParseNatText(n / 10);
      DigitRoundTrip(n % 10);
      assert s[..|s| - 1] == NatText(n / 10);
    }
  }

  lemma NoSlashInNumber(i: int)
    ensures '/' !in IntText(i)
  {
    var t := NatText(if i < 0 then -i else i);
    assert forall k :: 0 <= k < |t| ==> IsDigit(t[k]);
  }

  /** A minus sign before digits reads as the negated number. */
  lemma ParseSigned(t: string, n: nat)
    requires ParseNat(t) == Some(n)
    ensures ParseInt("-" + t) == Some(-(n as int))
  {
    assert ("-" + t)[1..] == t;
  }

  /** Digits without a sign read as their number. */
  lemma ParseUnsigned(t: string, n: nat)
    requires ParseNat(t) == Some(n)
    ensures ParseInt(t) == Some(n)
  {
    assert IsDigit(t[0]);
  }

  lemma ParseIntText(i: int)
    ensures ParseInt(IntText(i)) == Some(i)
  {
    if i < 0 {
      ParseNatText(-i);
      ParseSigned(NatText(-i), -i);
    } else {
      ParseNatText(i);
      ParseUnsigned(NatText(i), i);
    }
  }

  // ---------------------------------------------------------------- stripping and replacing

  /** Python's `s.lstrip(chars)`: drops leading characters that are in the SET
      `chars` (not a prefix). */
  function LStrip(s: string, chars: set<char>): (r: string)
    ensures |r| <= |s| && r == s[|s| - |r|..]
    ensures r != [] ==> r[0] !in chars
    ensures forall i :: 0 <= i < |s| - |r| ==> s[i] in chars
  {
    if s != [] && s[0] in chars then LStrip(s[1..], chars) else s
  }

  /** Python's `s.rstrip(chars)`: drops trailing characters that are in the SET
      `chars`. */
  function RStrip(s: string, chars: set<char>): (r: string)
    ensures |r| <= |s| && r == s[..|r|]
    ensures r != [] ==> r[|r| - 1] !in chars
    ensures forall i :: |r| <= i < |s| ==> s[i] in chars
  {
    if s != [] && s[|s| - 1] in chars then RStrip(s[..|s| - 1], chars) else s
  }

  /** Python's `s.replace(c, '')` for a single character `c`. */
  function Remove(s: string, c: char): (r: string)
    ensures c !in r
    ensures forall x :: x in r <==> x in s && x != c
  {
    if s == [] then [] else (if s[0] == c then [] else [s[0]]) + Remove(s[1..], c)
  }

  lemma {:induction false} RemoveAbsent(s: string, c: char)
    requires c !in s
    ensures Remove(s, c) == s
  {
    if s != [] {
      RemoveAbsent(s[1..], c);
    }
  }

  lemma {:induction false} RemoveAppend(a: string, b: string, c: char)
    ensures Remove(a + b, c) == Remove(a, c) + Remove(b, c)
  {
    if a != [] {
      assert (a + b)[1..] == a[1..] + b;
      RemoveAppend(a[1..], b, c);
    } else {
      assert a + b == b;
    }
  }

  // ---------------------------------------------------------------- splitting

  /** Python's `s.split(sep)` for a non-empty separator: cut at every
      occurrence of `sep`, scanning left to right, occurrences not overlapping. */
  function Split(s: string, sep: string): (parts: seq<string>)
    requires |sep| > 0
    ensures |parts| > 0
    decreases |s|
  {
    if |s| < |sep| then [s]
    else if s[..|sep|] == sep then [""] + Split(s[|sep|..], sep)
    else
      var rest := Split(s[1..], sep);
      [[s[0]] + rest[0]] + rest[1..]
  }

  /** Python's `sep.join(parts)`. */
  function Join(parts: seq<string>, sep: string): string
    requires |parts| > 0
  {
    if |parts| == 1 then parts[0] else parts[0] + sep + Join(parts[1..], sep)
  }

  /** Splitting where the first piece holds no separator character cuts right
      after that piece. */
  lemma {:induction false} SplitAfterPiece(a: string, rest: string, sep: string, c: char)
    requires |sep| > 1 && sep[1] == c && sep[0] != c
    requires c !in a
    ensures Split(a + sep + rest, sep) == [a] + Split(rest, sep)
    decreases |a|
  {
    var s := a + sep + rest;
    if a == [] {
      assert s == sep + rest;
      assert s[..|sep|] == sep;
      assert s[|sep|..] == rest;
    } else {
      assert s[..|sep|] != sep by {
        if |a| == 1 {
          assert s[1] == sep[0];
        } else {
          assert s[1] == a[1];
        }
      }
      assert s[1..] == a[1..] + sep + rest;
      SplitAfterPiece(a[1..], rest, sep, c);
      assert [a[0]] + a[1..] == a;
    }
  }

  /** Splitting on a one-character separator cuts right after a first piece
      that does not hold it. */
  lemma {:induction false} SplitAtChar(a: string, rest: string, c: char)
    requires c !in a
    ensures Split(a + [c] + rest, [c]) == [a] + Split(rest, [c])
    decreases |a|
  {
    var s := a + [c] + rest;
    if a == [] {
      assert s == [c] + rest;
      assert s[..1] == [c];
      assert s[1..] == rest;
    } else {
      assert s[0] == a[0] && a[0] in a;
      assert s[..1] != [c];
      assert s[1..] == a[1..] + [c] + rest;
      SplitAtChar(a[1..], rest, c);
      assert [a[0]] + a[1..] == a;
    }
  }

  /** A string without the one-character separator is one piece. */
  lemma {:induction false} SplitNoChar(a: string, c: char)
    requires c !in a
    ensures Split(a, [c]) == [a]
    decreases |a|
  {
    if a != [] {
      assert a[0] in a;
      assert a[..1] != [c];
      SplitNoChar(a[1..], c);
      assert [a[0]] + a[1..] == a;
    }
  }

  /** A string holding no separator character is one piece. */
  lemma {:induction false} SplitWhole(a: string, sep: string, c: char)
    requires |sep| > 1 && sep[1] == c
    requires c !in a
    ensures Split(a, sep) == [a]
    decreases |a|
  {
    if |a| >= |sep| {
      assert a[..|sep|] != sep by {
        assert a[1] != c;
      }
      SplitWhole(a[1..], sep, c);
      assert [a[0]] + a[1..] == a;
    }
  }

  /** Splitting a joined list gives the list back when no piece holds the
      separator's second character. */
  lemma {:induction false} SplitJoin(parts: seq<string>, sep: string, c: char)
    requires |parts| > 0
    requires |sep| > 1 && sep[1] == c && sep[0] != c
    requires forall i :: 0 <= i < |parts| ==> c !in parts[i]
    ensures Split(Join(parts, sep), sep) == parts
  {
    if |parts| == 1 {
      SplitWhole(parts[0], sep, c);
    } else {
      SplitJoin(parts[1..], sep, c);
      SplitAfterPiece(parts[0], Join(parts[1..], sep), sep, c);
      assert parts == [parts[0]] + parts[1..];
    }
  }

  // ---------------------------------------------------------------- ordering and de-duplication

  /** Code-point lexicographic order on strings, the order `np.unique` sorts by. */
  predicate Below(a: string, b: string)
  {
    if a == [] then b != []
    else if b == [] then false
    else if a[0] == b[0] then Below(a[1..], b[1..])
    else a[0] < b[0]
  }

  lemma {:induction false} BelowIrreflexive(a: string)
    ensures !Below(a, a)
  {
    if a != [] {
      BelowIrreflexive(a[1..]);
    }
  }

  lemma {:induction false} BelowTotal(a: string, b: string)
    ensures a == b || Below(a, b) || Below(b, a)
  {
    if a != [] && b != [] && a[0] == b[0] {
      BelowTotal(a[1..], b[1..]);
      if a[1..] == b[1..] {
        assert a == [a[0]] + a[1..] && b == [b[0]] + b[1..];
      }
    }
  }

  lemma {:induction false} BelowTransitive(a: string, b: string, c: string)
    requires Below(a, b) && Below(b, c)
    ensures Below(a, c)
  {
    if a != [] && a[0] == b[0] && b[0] == c[0] {
      BelowTransitive(a[1..], b[1..], c[1..]);
    }
  }

  /** The values a list holds. */
  function Elements(s: seq<string>): set<string>
  {
    set y | y in s
  }

  predicate StrictlySorted(s: seq<string>)
  {
    forall i, j :: 0 <= i < j < |s| ==> Below(s[i], s[j])
  }

  /** Inserts `x` into a strictly sorted list unless it is already there. */
  function Insert(x: string, s: seq<string>): seq<string>
  {
    if s == [] then [x]
    else if x == s[0] then s
    else if Below(x, s[0]) then [x] + s
    else [s[0]] + Insert(x, s[1..])
  }

  lemma {:induction false} InsertSorted(x: string, s: seq<string>)
    requires StrictlySorted(s)
    ensures StrictlySorted(Insert(x, s))
    ensures Elements(Insert(x, s)) == Elements(s) + {x}
  {
    if s == [] {
    } else if x == s[0] {
    } else if Below(x, s[0]) {
      var r := [x] + s;
      forall i, j | 0 <= i < j < |r| ensures Below(r[i], r[j]) {
        if i == 0 && j > 1 {
          BelowTransitive(x, s[0], s[j - 1]);
        }
      }
    } else {
      BelowTotal(x, s[0]);
      InsertSorted(x, s[1..]);
      var t := Insert(x, s[1..]);
      var r := [s[0]] + t;
      assert forall y :: y in t ==> y in Elements(t);
      forall i, j | 0 <= i < j < |r| ensures Below(r[i], r[j]) {
        if i == 0 {
          assert r[j] in t;
        }
      }
      assert s == [s[0]] + s[1..];
    }
  }

  /** `np.unique` on a list of labels: its distinct values in ascending order. */
  function SortedUnique(xs: seq<string>): (r: seq<string>)
    ensures StrictlySorted(r)
    ensures Elements(r) == Elements(xs)
  {
    if xs == [] then []
    else
      var rest := SortedUnique(xs[1..]);
      InsertSorted(xs[0], rest);
      assert xs == [xs[0]] + xs[1..];
      Insert(xs[0], rest)
  }

  // ---------------------------------------------------------------- list literals

  /** A joined list starts with its first piece and ends with its last. */
  lemma {:induction false} JoinEnds(parts: seq<string>, sep: string)
    requires |parts| > 0
    ensures |Join(parts, sep)| >= |parts[0]| && |Join(parts, sep)| >= |parts[|parts| - 1]|
    ensures Join(parts, sep)[..|parts[0]|] == parts[0]
    ensures Join(parts, sep)[|Join(parts, sep)| - |parts[|parts| - 1]|..] == parts[|parts| - 1]
  {
    if |parts| > 1 {
      JoinEnds(parts[1..], sep);
      var j := Join(parts[1..], sep);
      assert Join(parts, sep) == parts[0] + sep + j;
      assert parts[1..][|parts[1..]| - 1] == parts[|parts| - 1];
    }
  }

  /** Stripping a prefix of stripped characters stops at the first character
      outside the set. */
  lemma StripPrefix(p: string, body: string, chars: set<char>)
    requires forall i :: 0 <= i < |p| ==> p[i] in chars
    requires body != [] && body[0] !in chars
    ensures LStrip(p + body, chars) == body
  {
    var s := p + body;
    var r := LStrip(s, chars);
    assert s[|p|] == body[0];
    assert s[|p|..] == body;
  }

  lemma StripSuffix(body: string, q: string, chars: set<char>)
    requires forall i :: 0 <= i < |q| ==> q[i] in chars
    requires body != [] && body[|body| - 1] !in chars
    ensures RStrip(body + q, chars) == body
  {
    var s := body + q;
    var r := RStrip(s, chars);
    assert s[|body| - 1] == body[|body| - 1];
    assert s[..|body|] == body;
  }
}
