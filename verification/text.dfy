/** The optional value used wherever the host or a parser may produce nothing. */
module Wrappers {
  datatype Option<+T> = None | Some(value: T)
}

/**
 * The small string toolkit the outline code relies on: JavaScript's
 * `startsWith`, `split('\n')`, `padStart` and `String(n)`, each written out
 * over `seq<char>`, with the `indexOf` search the splitter and the link
 * matcher use. `split('\n')` and `String(n)` come with the inverses the
 * proofs use.
 */
module Text {
  import opened Wrappers

  /** `s.startsWith(prefix)`. */
  predicate StartsWith(s: string, prefix: string) {
    |prefix| <= |s| && s[..|prefix|] == prefix
  }

  /** The first index at or after `from` holding `c`, or None when there is none. */
  function IndexOf(s: string, c: char, from: nat): (r: Option<nat>)
    decreases |s| - from
    ensures r.Some? ==> from <= r.value < |s| && s[r.value] == c
    ensures r.Some? ==> forall k :: from <= k < r.value ==> s[k] != c
    ensures r.None? ==> forall k :: from <= k < |s| ==> s[k] != c
  {
    if from >= |s| then None
    else if s[from] == c then Some(from)
    else IndexOf(s, c, from + 1)
  }

  /** The contract of IndexOf determines its result. */
  lemma IndexOfIs(s: string, c: char, from: nat, k: nat)
    requires from <= k < |s| && s[k] == c
    requires forall j :: from <= j < k ==> s[j] != c
    ensures IndexOf(s, c, from) == Some(k)
  {
  }

  /** `s.split('\n')`: the pieces between newlines, always at least one. */
  function Lines(s: string): (r: seq<string>)
    decreases |s|
    ensures |r| >= 1
    ensures forall l :: l in r ==> '\n' !in l
  {
    match IndexOf(s, '\n', 0)
    case None => [s]
    case Some(i) => [s[..i]] + Lines(s[i + 1..])
  }

  /** `ls.join('\n')`: the pieces with a newline between each two. */
  function Join(ls: seq<string>): string
    decreases |ls|
  {
    if ls == [] then ""
    else if |ls| == 1 then ls[0]
    else ls[0] + "\n" + Join(ls[1..])
  }

  /** Splitting loses nothing: the pieces joined by newlines give the text back. */
  lemma {:induction false} JoinLines(s: string)
    ensures Join(Lines(s)) == s
    decreases |s|
  {
    match IndexOf(s, '\n', 0)
    case None =>
    case Some(i) =>
      var rest := Lines(s[i + 1..]);
      assert Lines(s) == [s[..i]] + rest;
      JoinLines(s[i + 1..]);
      assert ([s[..i]] + rest)[1..] == rest;
      assert s == s[..i] + "\n" + s[i + 1..];
  }

  /** Joining newline-free pieces and splitting again gives the pieces back. */
  lemma {:induction false} LinesOfJoin(ls: seq<string>)
    requires |ls| >= 1
    requires forall l :: l in ls ==> '\n' !in l
    ensures Lines(Join(ls)) == ls
    decreases |ls|
  {
    if |ls| == 1 {
      assert IndexOf(ls[0], '\n', 0) == None by {
        assert ls[0] in ls;
      }
    } else {
      assert ls[0] in ls;
      LinesCons(ls[0], Join(ls[1..]));
      LinesOfJoin(ls[1..]);
      assert [ls[0]] + ls[1..] == ls;
    }
  }

  /** The text made of `lines`, each one followed by a newline. */
  function Unlines(lines: seq<string>): string {
    if lines == [] then "" else Unlines(lines[..|lines| - 1]) + lines[|lines| - 1] + "\n"
  }

  lemma {:induction false} UnlinesAppend(a: seq<string>, b: seq<string>)
    ensures Unlines(a + b) == Unlines(a) + Unlines(b)
    decreases |b|
  {
    if b == [] {
      assert a + b == a;
    } else {
      var b' := b[..|b| - 1];
      assert (a + b)[..|a + b| - 1] == a + b';
      UnlinesAppend(a, b');
    }
  }

  lemma UnlinesSnoc(ls: seq<string>, l: string)
    ensures Unlines(ls + [l]) == Unlines(ls) + l + "\n"
  {
    assert (ls + [l])[..|ls|] == ls;
  }

  /** A line followed by a blank line. */
  lemma UnlinesBlank(a: string)
    ensures Unlines([a, ""]) == a + "\n\n"
  {
    UnlinesSnoc([], a);
    UnlinesSnoc([a], "");
    assert [a] + [""] == [a, ""];
    assert Unlines([a]) + "" + "\n" == a + "\n\n";
  }

  /** Splitting a line followed by a newline yields that line first. */
  lemma LinesCons(l: string, rest: string)
    requires '\n' !in l
    ensures Lines(l + "\n" + rest) == [l] + Lines(rest)
  {
    var s := l + "\n" + rest;
    IndexOfIs(s, '\n', 0, |l|);
    assert s[..|l|] == l;
    assert s[|l| + 1..] == rest;
  }

  /** Splitting newline-terminated lines gives the lines back, plus the empty tail. */
  lemma {:induction false} LinesOfUnlines(ls: seq<string>)
    requires forall l :: l in ls ==> '\n' !in l
    ensures Lines(Unlines(ls)) == ls + [""]
    decreases |ls|
  {
    if ls == [] {
      assert Lines("") == [""];
    } else {
      UnlinesAppend([ls[0]], ls[1..]);
      assert [ls[0]] + ls[1..] == ls;
      assert Unlines([ls[0]]) == ls[0] + "\n";
      LinesCons(ls[0], Unlines(ls[1..]));
      LinesOfUnlines(ls[1..]);
    }
  }

  predicate IsDigit(c: char) {
    '0' <= c <= '9'
  }

  predicate AllDigits(s: string) {
    forall i :: 0 <= i < |s| ==> IsDigit(s[i])
  }

  function DigitChar(d: nat): (c: char)
    requires d < 10
    ensures IsDigit(c)
  {
    (d + '0' as int) as char
  }

  function DigitValue(c: char): (d: nat)
    requires IsDigit(c)
    ensures d < 10 && DigitChar(d) == c
  {
    c as int - '0' as int
  }

  /** `String(n)` for a non-negative integer: decimal, no leading zero. */
  function NatStr(n: nat): (r: string)
    ensures |r| >= 1 && AllDigits(r)
    ensures |r| > 1 ==> r[0] != '0'
  {
    if n < 10 then [DigitChar(n)] else NatStr(n / 10) + [DigitChar(n % 10)]
  }

  /** The value of a string of decimal digits (the empty string reads as 0). */
  function ParseNat(s: string): nat
    requires AllDigits(s)
  {
    if s == [] then 0 else ParseNat(s[..|s| - 1]) * 10 + DigitValue(s[|s| - 1])
  }

  lemma {:induction false} ParseNatStr(n: nat)
    ensures ParseNat(NatStr(n)) == n
  {
    if n >= 10 {
      var s := NatStr(n);
      assert s[..|s| - 1] == NatStr(n / 10);
      ParseNatStr(n / 10);
    }
  }

  /** Leading zeros do not change the value of a digit string. */
  lemma {:induction false} ParseNatLeadingZero(s: string)
    requires AllDigits(s)
    ensures ParseNat("0" + s) == ParseNat(s)
    decreases |s|
  {
    if s != [] {
      var s' := s[..|s| - 1];
      assert ("0" + s)[..|"0" + s| - 1] == "0" + s';
      ParseNatLeadingZero(s');
    }
  }

  /** The length of the longest run of digits at the start of `s`. */
  function DigitSpan(s: string): (n: nat)
    ensures n <= |s| && AllDigits(s[..n])
    ensures n < |s| ==> !IsDigit(s[n])
  {
    if s == [] || !IsDigit(s[0]) then 0
    else
      var n := 1 + DigitSpan(s[1..]);
      assert s[..n] == [s[0]] + s[1..][..n - 1];
      n
  }

  /** A run of digits ended by a non-digit (or by the end) is exactly the digit span. */
  lemma {:induction false} DigitSpanOf(d: string, rest: string)
    requires AllDigits(d)
    requires rest == [] || !IsDigit(rest[0])
    ensures DigitSpan(d + rest) == |d|
    decreases |d|
  {
    if d != [] {
      assert (d + rest)[1..] == d[1..] + rest;
      DigitSpanOf(d[1..], rest);
    } else {
      assert d + rest == rest;
    }
  }

  /** `String(n)` for any integer: a minus sign before the magnitude when negative. */
  function IntStr(n: int): (r: string)
    ensures |r| >= 1
  {
    if n < 0 then "-" + NatStr(-n) else NatStr(n)
  }

  /** Reads back what IntStr writes; None for anything else. */
  function ParseInt(s: string): (r: Option<int>)
  {
    if |s| >= 2 && s[0] == '-' && AllDigits(s[1..]) then
      var magnitude: int := ParseNat(s[1..]);
      Some(-magnitude)
    else if |s| >= 1 && AllDigits(s) then
      var value: int := ParseNat(s);
      Some(value)
    else None
  }

  lemma ParseIntStr(n: int)
    ensures ParseInt(IntStr(n)) == Some(n)
  {
    var s := IntStr(n);
    if n < 0 {
      assert s[0] == '-' && s[1..] == NatStr(-n);
      ParseNatStr(-n);
    } else {
      assert IsDigit(s[0]);
      ParseNatStr(n);
    }
  }

  /** `c` repeated `n` times. */
  function Repeat(c: char, n: nat): (r: string)
    ensures |r| == n && forall i :: 0 <= i < n ==> r[i] == c
  {
    if n == 0 then "" else [c] + Repeat(c, n - 1)
  }

  /** `s.padStart(width, fill)` for a one-character fill. */
  function PadStart(s: string, width: nat, fill: char): (r: string)
    ensures |r| == if |s| >= width then |s| else width
    ensures r[|r| - |s|..] == s
    ensures forall i :: 0 <= i < |r| - |s| ==> r[i] == fill
  {
    if |s| >= width then s else Repeat(fill, width - |s|) + s
  }
}
