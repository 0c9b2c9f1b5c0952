/** String helpers standing in for the PHP built-ins the core calls
  * (implode, explode, str_replace, strtolower, basename, integer-to-string). */
module Text {

  /** `implode($sep, $parts)`. */
  function Join(parts: seq<string>, sep: string): string
    decreases |parts|
  {
    if |parts| == 0 then ""
    else if |parts| == 1 then parts[0]
    else parts[0] + sep + Join(parts[1..], sep)
  }

  /** `explode($c, $s)` for a one-character delimiter: never empty, `explode(',', '')` is `['']`. */
  function Split(s: string, c: char): (r: seq<string>)
    ensures |r| >= 1
    decreases |s|
  {
    if |s| == 0 then [""]
    else
      var rest := Split(s[1..], c);
      if s[0] == c then [""] + rest
      else [[s[0]] + rest[0]] + rest[1..]
  }

  /** No piece produced by `explode` contains the delimiter. */
  lemma {:induction false} SplitPiecesFree(s: string, c: char)
    ensures forall k :: 0 <= k < |Split(s, c)| ==> c !in Split(s, c)[k]
    decreases |s|
  {
    if |s| > 0 {
      SplitPiecesFree(s[1..], c);
    }
  }

  /** `implode($c, explode($c, $s)) === $s`. */
  lemma {:induction false} JoinSplit(s: string, c: char)
    ensures Join(Split(s, c), [c]) == s
    decreases |s|
  {
    if |s| > 0 {
      var rest := Split(s[1..], c);
      JoinSplit(s[1..], c);
      if s[0] == c {
        assert Split(s, c) == [""] + rest;
        assert ([""] + rest)[1..] == rest;
        assert Join([""] + rest, [c]) == "" + [c] + Join(rest, [c]);
        assert s == [c] + s[1..];
      } else {
        var parts := [[s[0]] + rest[0]] + rest[1..];
        assert Split(s, c) == parts;
        if |rest| == 1 {
          assert Join(parts, [c]) == [s[0]] + rest[0];
          assert Join(rest, [c]) == rest[0];
        } else {
          assert parts[1..] == rest[1..];
          assert Join(parts, [c]) == [s[0]] + rest[0] + [c] + Join(rest[1..], [c]);
          assert Join(rest, [c]) == rest[0] + [c] + Join(rest[1..], [c]);
        }
        assert s == [s[0]] + s[1..];
      }
    }
  }

  lemma {:induction false} SplitFree(x: string, c: char)
    requires c !in x
    ensures Split(x, c) == [x]
    decreases |x|
  {
    if |x| > 0 {
      SplitFree(x[1..], c);
      assert x == [x[0]] + x[1..];
    }
  }

  lemma {:induction false} SplitAtDelimiter(x: string, c: char, y: string)
    requires c !in x
    ensures Split(x + [c] + y, c) == [x] + Split(y, c)
    decreases |x|
  {
    var s := x + [c] + y;
    if |x| == 0 {
      assert s == [c] + y;
      assert s[1..] == y;
    } else {
      assert s[1..] == x[1..] + [c] + y;
      SplitAtDelimiter(x[1..], c, y);
      assert x == [x[0]] + x[1..];
    }
  }

  /** `explode($c, implode($c, $parts)) == $parts` when no part contains the delimiter. */
  lemma {:induction false} SplitJoin(parts: seq<string>, c: char)
    requires |parts| >= 1
    requires forall k :: 0 <= k < |parts| ==> c !in parts[k]
    ensures Split(Join(parts, [c]), c) == parts
    decreases |parts|
  {
    if |parts| == 1 {
      SplitFree(parts[0], c);
    } else {
      SplitJoin(parts[1..], c);
      SplitAtDelimiter(parts[0], c, Join(parts[1..], [c]));
      assert parts == [parts[0]] + parts[1..];
    }
  }

  /** Joining after appending one more part appends the separator and that part. */
  lemma {:induction false} JoinSnoc(parts: seq<string>, sep: string, last: string)
    requires |parts| >= 1
    ensures Join(parts + [last], sep) == Join(parts, sep) + sep + last
    decreases |parts|
  {
    if |parts| == 1 {
      assert (parts + [last])[1..] == [last];
    } else {
      assert (parts + [last])[1..] == parts[1..] + [last];
      JoinSnoc(parts[1..], sep, last);
    }
  }

  /** `explode` a namespace, add two segments and `join` again: the same as appending them. */
  lemma {:induction false} AppendSegments(ns: string, a: string, b: string)
    ensures Join(Split(ns, '\\') + [a, b], "\\") == ns + "\\" + a + "\\" + b
  {
    var pieces := Split(ns, '\\');
    JoinSplit(ns, '\\');
    JoinSnoc(pieces, "\\", a);
    JoinSnoc(pieces + [a], "\\", b);
    assert pieces + [a] + [b] == pieces + [a, b];
  }

  /** `str_replace($needle, '', $s)`: removes every occurrence, scanning left to right without rescanning. */
  function RemoveAll(s: string, needle: string): (r: string)
    ensures |r| <= |s|
    ensures |needle| == 0 ==> r == s
    decreases |s|
  {
    if |needle| == 0 || |s| == 0 then s
    else if |needle| <= |s| && s[..|needle|] == needle then RemoveAll(s[|needle|..], needle)
    else [s[0]] + RemoveAll(s[1..], needle)
  }

  /** `needle` occurs in `s` starting at position `i`. */
  predicate OccursAt(s: string, needle: string, i: int) {
    0 <= i && i + |needle| <= |s| && s[i..i + |needle|] == needle
  }

  /** `str_replace` leaves a string without an occurrence of a non-empty needle unchanged. */
  lemma {:induction false} RemoveAllAbsent(s: string, needle: string)
    requires |needle| > 0
    requires forall i :: !OccursAt(s, needle, i)
    ensures RemoveAll(s, needle) == s
    decreases |s|
  {
    if |s| > 0 {
      assert !OccursAt(s, needle, 0);
      var t := s[1..];
      forall i
        ensures !OccursAt(t, needle, i)
      {
        if 0 <= i && i + |needle| <= |t| {
          assert t[i..i + |needle|] == s[i + 1..i + 1 + |needle|];
          assert !OccursAt(s, needle, i + 1);
        }
      }
      RemoveAllAbsent(t, needle);
      assert [s[0]] + t == s;
    }
  }

  predicate IsUpper(c: char) {
    'A' <= c <= 'Z'
  }

  /** `strtolower` on one character (ASCII only, as in PHP 8.2). */
  function LowerChar(c: char): (r: char)
    ensures !IsUpper(r)
    ensures IsUpper(c) ==> r as int == c as int + 32
    ensures !IsUpper(c) ==> r == c
  {
    if IsUpper(c) then (c as int + 32) as char else c
  }

  /** `strtolower`. */
  function ToLower(s: string): (r: string)
    ensures |r| == |s|
    ensures forall i :: 0 <= i < |s| ==> r[i] == LowerChar(s[i])
    ensures forall i :: 0 <= i < |r| ==> !IsUpper(r[i])
  {
    seq(|s|, i requires 0 <= i < |s| => LowerChar(s[i]))
  }

  /** `substr($s, 0, $n)` for a non-negative length. */
  function Take(s: string, n: nat): (r: string)
    ensures |r| == if n <= |s| then n else |s|
    ensures r == s[..|r|]
  {
    if n <= |s| then s[..n] else s
  }

  /** Replaces every occurrence of one character by another (`str_replace` on single characters). */
  function ReplaceChar(s: string, from: char, to: char): (r: string)
    ensures |r| == |s|
    ensures forall i :: 0 <= i < |s| ==> r[i] == (if s[i] == from then to else s[i])
  {
    seq(|s|, i requires 0 <= i < |s| => if s[i] == from then to else s[i])
  }

  /** Drops trailing occurrences of a character, as `basename` drops trailing slashes. */
  function TrimTrailing(s: string, c: char): (r: string)
    ensures |r| <= |s| && r == s[..|r|]
    ensures |r| > 0 ==> r[|r| - 1] != c
    ensures forall i :: |r| <= i < |s| ==> s[i] == c
    decreases |s|
  {
    if |s| > 0 && s[|s| - 1] == c then TrimTrailing(s[..|s| - 1], c) else s
  }

  /** The last piece of `explode($c, $s)`. */
  function LastPiece(s: string, c: char): (r: string)
    ensures c !in r
  {
    var pieces := Split(s, c);
    SplitPiecesFree(s, c);
    pieces[|pieces| - 1]
  }

  /** Laravel's `class_basename`: `basename(str_replace('\\', '/', $class))`. */
  function ClassBasename(s: string): (r: string)
    ensures '/' !in r
  {
    LastPiece(TrimTrailing(ReplaceChar(s, '\\', '/'), '/'), '/')
  }

  /** A PHP string is falsy iff it is `''` or `'0'`. */
  predicate Truthy(s: string) {
    s != "" && s != "0"
  }

  function DigitChar(d: nat): char
    requires d < 10
  {
    ('0' as int + d) as char
  }

  function NatToString(n: nat): (r: string)
    ensures |r| >= 1
    ensures forall i :: 0 <= i < |r| ==> '0' <= r[i] <= '9'
    decreases n
  {
    if n < 10 then [DigitChar(n)] else NatToString(n / 10) + [DigitChar(n % 10)]
  }

  /** PHP's decimal conversion of an integer to a string. */
  function IntToString(i: int): (r: string)
    ensures |r| >= 1
    ensures (r[0] == '-') <==> i < 0
  {
    if i < 0 then "-" + NatToString(-i) else NatToString(i)
  }
}
