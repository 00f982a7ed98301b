/** String operations the pipeline borrows from Python and JavaScript:
    join, whitespace classes, strip/trim and splitting at one character. */
module Strings {

  /** Python's `sep.join(parts)`, also JavaScript's `parts.join(sep)`. */
  function Join(sep: string, parts: seq<string>): string {
    if parts == [] then ""
    else if |parts| == 1 then parts[0]
    else parts[0] + sep + Join(sep, parts[1..])
  }

  /** Joining two non-empty lists puts exactly one separator between the two joins. */
  lemma {:induction false} JoinAppend(sep: string, xs: seq<string>, ys: seq<string>)
    requires xs != [] && ys != []
    ensures Join(sep, xs + ys) == Join(sep, xs) + sep + Join(sep, ys)
  {
    if |xs| == 1 {
      assert (xs + ys)[1..] == ys;
    } else {
      JoinAppend(sep, xs[1..], ys);
      assert (xs + ys)[1..] == xs[1..] + ys;
    }
  }

  /** The joined text is as long as the parts plus one separator between neighbours. */
  lemma {:induction false} JoinLength(sep: string, parts: seq<string>)
    requires parts != []
    ensures |Join(sep, parts)| == SumLengths(parts) + (|parts| - 1) * |sep|
  {
    if |parts| > 1 { JoinLength(sep, parts[1..]); }
  }

  function SumLengths(parts: seq<string>): nat {
    if parts == [] then 0 else |parts[0]| + SumLengths(parts[1..])
  }

  /** Python's str.isspace on one character: what str.strip() removes. */
  predicate IsPySpace(c: char) {
    || c == ' ' || '\t' <= c <= '\r' || '\U{1c}' <= c <= '\U{1f}'
    || c == '\U{85}' || c == '\U{a0}' || c == '\U{1680}'
    || '\U{2000}' <= c <= '\U{200a}' || c == '\U{2028}' || c == '\U{2029}'
    || c == '\U{202f}' || c == '\U{205f}' || c == '\U{3000}'
  }

  /** `not s.strip()`: the string is empty or holds only whitespace. */
  predicate IsBlank(s: string) {
    forall k :: 0 <= k < |s| ==> IsPySpace(s[k])
  }

  /** ECMAScript WhiteSpace or LineTerminator: the class `\s` and what trim() removes. */
  predicate IsJsSpace(c: char) {
    || c == ' ' || '\t' <= c <= '\r' || c == '\U{a0}' || c == '\U{feff}' || c == '\U{1680}'
    || '\U{2000}' <= c <= '\U{200a}' || c == '\U{2028}' || c == '\U{2029}'
    || c == '\U{202f}' || c == '\U{205f}' || c == '\U{3000}'
  }

  function TrimStart(s: string): (r: string)
    ensures |r| <= |s| && r == s[|s| - |r|..]
    ensures forall k :: 0 <= k < |s| - |r| ==> IsJsSpace(s[k])
    ensures r != [] ==> !IsJsSpace(r[0])
  {
    if s != [] && IsJsSpace(s[0]) then TrimStart(s[1..]) else s
  }

  function TrimEnd(s: string): (r: string)
    ensures |r| <= |s| && r == s[..|r|]
    ensures forall k :: |r| <= k < |s| ==> IsJsSpace(s[k])
    ensures r != [] ==> !IsJsSpace(r[|r| - 1])
  {
    if s != [] && IsJsSpace(s[|s| - 1]) then TrimEnd(s[..|s| - 1]) else s
  }

  /** JavaScript's String.prototype.trim: the slice left after removing the
      whitespace at both ends, and only that. */
  function JsTrim(s: string): (r: string)
    ensures exists i, j :: 0 <= i <= j <= |s| && r == s[i..j] && WhitespaceOutside(s, i, j)
    ensures r != [] ==> !IsJsSpace(r[0]) && !IsJsSpace(r[|r| - 1])
  {
    var t := TrimStart(s);
    TrimmedSlice(s, t, TrimEnd(t));
    TrimEnd(t)
  }

  /** Cutting whitespace off the front and then off the back leaves the slice
      between the two cuts. */
  lemma TrimmedSlice(s: string, t: string, r: string)
    requires |t| <= |s| && t == s[|s| - |t|..] && forall k :: 0 <= k < |s| - |t| ==> IsJsSpace(s[k])
    requires |r| <= |t| && r == t[..|r|] && forall k :: |r| <= k < |t| ==> IsJsSpace(t[k])
    ensures var i := |s| - |t|;
      && r == s[i..i + |r|] && WhitespaceOutside(s, i, i + |r|)
  {
    var i := |s| - |t|;
    forall k | i + |r| <= k < |s| ensures IsJsSpace(s[k]) {
      assert s[k] == t[k - i];
    }
  }

  /** Everything before position i and from position j on is whitespace. */
  predicate WhitespaceOutside(s: string, i: nat, j: nat)
    requires i <= j <= |s|
  {
    (forall k :: 0 <= k < i ==> IsJsSpace(s[k])) && (forall k :: j <= k < |s| ==> IsJsSpace(s[k]))
  }

  /** Trimming leading spaces off a string whose ends are not spaces gives that string. */
  lemma {:induction false} TrimSpacesBefore(spaces: string, x: string)
    requires forall k :: 0 <= k < |spaces| ==> IsJsSpace(spaces[k])
    requires x != [] && !IsJsSpace(x[0]) && !IsJsSpace(x[|x| - 1])
    ensures JsTrim(spaces + x) == x
  {
    if spaces == [] {
      assert spaces + x == x;
    } else {
      TrimSpacesBefore(spaces[1..], x);
      assert (spaces + x)[1..] == spaces[1..] + x;
    }
  }

  /** JavaScript's `s.split(c)` for a one-character separator string. */
  function SplitOn(s: string, c: char): (r: seq<string>)
    ensures |r| >= 1
    ensures forall k :: 0 <= k < |r| ==> c !in r[k]
  {
    if s == [] then [""]
    else
      var rest := SplitOn(s[1..], c);
      if s[0] == c then [""] + rest else [[s[0]] + rest[0]] + rest[1..]
  }

  /** How many times c occurs in s. */
  function Occurrences(s: string, c: char): (r: nat)
    ensures r == 0 <==> c !in s
  {
    if s == [] then 0 else (if s[0] == c then 1 else 0) + Occurrences(s[1..], c)
  }

  /** The occurrences of c over a list of strings. */
  function SumOccurrences(parts: seq<string>, c: char): (r: nat)
    ensures r == 0 <==> forall k :: 0 <= k < |parts| ==> c !in parts[k]
  {
    if parts == [] then 0 else Occurrences(parts[0], c) + SumOccurrences(parts[1..], c)
  }

  lemma {:induction false} OccurrencesAppend(a: string, b: string, c: char)
    ensures Occurrences(a + b, c) == Occurrences(a, c) + Occurrences(b, c)
  {
    if a == [] {
      assert a + b == b;
    } else {
      OccurrencesAppend(a[1..], b, c);
      assert (a + b)[1..] == a[1..] + b;
    }
  }

  /** Splitting gives one more piece than there are separators. */
  lemma {:induction false} SplitOnCount(s: string, c: char)
    ensures |SplitOn(s, c)| == Occurrences(s, c) + 1
  {
    if s != [] {
      SplitOnCount(s[1..], c);
    }
  }

  lemma MulStep(n: int, m: int)
    ensures (n - 1) * m == (n - 2) * m + m
  {
  }

  /** A joined text holds the parts' occurrences plus the separators'. */
  lemma {:induction false} JoinOccurrences(sep: string, parts: seq<string>, c: char)
    requires parts != []
    ensures Occurrences(Join(sep, parts), c) == SumOccurrences(parts, c) + (|parts| - 1) * Occurrences(sep, c)
  {
    if |parts| > 1 {
      var rest := parts[1..];
      var m := Occurrences(sep, c);
      JoinOccurrences(sep, rest, c);
      assert Join(sep, parts) == (parts[0] + sep) + Join(sep, rest);
      OccurrencesAppend(parts[0] + sep, Join(sep, rest), c);
      OccurrencesAppend(parts[0], sep, c);
      assert SumOccurrences(parts, c) == Occurrences(parts[0], c) + SumOccurrences(rest, c);
      MulStep(|parts|, m);
    }
  }

  /** Gluing the pieces back with the separator restores the string. */
  lemma {:induction false} SplitOnJoin(s: string, c: char)
    ensures Join([c], SplitOn(s, c)) == s
  {
    if s != [] {
      var rest := SplitOn(s[1..], c);
      SplitOnJoin(s[1..], c);
      if s[0] == c {
        assert Join([c], [""] + rest) == "" + [c] + Join([c], rest);
      } else if |rest| == 1 {
        assert SplitOn(s, c) == [[s[0]] + rest[0]];
      } else {
        var r := [[s[0]] + rest[0]] + rest[1..];
        assert r[1..] == rest[1..];
        assert Join([c], rest) == rest[0] + [c] + Join([c], rest[1..]);
      }
    }
  }

  /** A prefix free of the separator ends up at the front of the first piece. */
  lemma {:induction false} SplitOnPrefix(x: string, t: string, c: char)
    requires c !in x
    ensures SplitOn(x + t, c) == [x + SplitOn(t, c)[0]] + SplitOn(t, c)[1..]
  {
    if x != [] {
      SplitOnPrefix(x[1..], t, c);
      var r := SplitOn(t, c);
      var rest := SplitOn(x[1..] + t, c);
      assert (x + t)[0] == x[0] && (x + t)[1..] == x[1..] + t;
      assert x[0] != c;
      assert SplitOn(x + t, c) == [[x[0]] + rest[0]] + rest[1..];
      assert rest[0] == x[1..] + r[0] && rest[1..] == r[1..];
      assert [x[0]] + (x[1..] + r[0]) == x + r[0];
    } else {
      var r := SplitOn(t, c);
      assert x + t == t && x + r[0] == r[0];
      assert r == [r[0]] + r[1..];
    }
  }

  /** Splitting a join of separator-free pieces gives the pieces back. */
  lemma {:induction false} JoinSplitOn(xs: seq<string>, c: char)
    requires xs != [] && forall k :: 0 <= k < |xs| ==> c !in xs[k]
    ensures SplitOn(Join([c], xs), c) == xs
  {
    if |xs| == 1 {
      SplitOnPrefix(xs[0], "", c);
      assert xs[0] + "" == xs[0];
    } else {
      var tail := [c] + Join([c], xs[1..]);
      JoinSplitOn(xs[1..], c);
      SplitOnPrefix(xs[0], tail, c);
      assert tail[0] == c && tail[1..] == Join([c], xs[1..]);
      assert Join([c], xs) == xs[0] + tail;
      assert SplitOn(tail, c) == [""] + xs[1..];
      assert xs[0] + "" == xs[0];
      assert xs == [xs[0]] + xs[1..];
    }
  }
}
