/** The leftmost-first regular expressions the agent uses: literals, greedy runs of a character class, capture
    marks and an optional tail, matched with backtracking in the order Go's regexp package promises. */
module Regex {
  import opened Options
  import opened Decimal

  datatype Class = Space | NonSpace | Digit | HexColon

  predicate IsSpace(c: char) {
    c == ' ' || c == '\t' || c == '\n' || c == '\r' || c == '\U{000C}'
  }

  predicate In(c: char, cls: Class) {
    match cls
    case Space => IsSpace(c)
    case NonSpace => !IsSpace(c)
    case Digit => IsDigit(c)
    case HexColon => IsDigit(c) || 'a' <= c <= 'f' || 'A' <= c <= 'F' || c == ':'
  }

  predicate All(s: string, cls: Class) {
    forall i :: 0 <= i < |s| ==> In(s[i], cls)
  }

  /** `Plus` and `Star` are greedy; `Mark` records where a group begins or ends; `Maybe` is `(?:inner)?` at the end. */
  datatype Pattern =
    | End
    | Lit(text: string, rest: Pattern)
    | Plus(cls: Class, rest: Pattern)
    | Star(cls: Class, rest: Pattern)
    | Mark(rest: Pattern)
    | Maybe(inner: Pattern)

  /** The length of the longest prefix made of the class. */
  function Run(s: string, cls: Class): (n: nat)
    ensures n <= |s|
  {
    if s != "" && In(s[0], cls) then 1 + Run(s[1..], cls) else 0
  }

  /** A match of the pattern at the start of `s`: for each mark, the number of characters left at it. */
  function Match(p: Pattern, s: string): Option<seq<nat>>
    decreases p, 0
  {
    match p
    case End => Some([])
    case Lit(t, rest) => if t <= s then Match(rest, s[|t|..]) else None
    case Plus(cls, rest) => Longest(rest, s, Run(s, cls), 1)
    case Star(cls, rest) => Longest(rest, s, Run(s, cls), 0)
    case Mark(rest) =>
      (match Match(rest, s)
       case Some(m) => Some([|s|] + m)
       case None => None)
    case Maybe(inner) =>
      (match Match(inner, s)
       case Some(m) => Some(m)
       case None => Some([]))
  }

  /** The longest run for which the rest matches, from `n` down to `least`. */
  function Longest(rest: Pattern, s: string, n: nat, least: nat): Option<seq<nat>>
    requires n <= |s|
    decreases rest, 1 + n
  {
    if n < least then None
    else
      match Match(rest, s[n..])
      case Some(m) => Some(m)
      case None => if n == 0 then None else Longest(rest, s, n - 1, least)
  }

  /** The leftmost match. */
  function Find(p: Pattern, s: string): Option<seq<nat>> {
    match Match(p, s)
    case Some(m) => Some(m)
    case None => if s == "" then None else Find(p, s[1..])
  }

  /** Text between two marks. */
  function Between(s: string, from: nat, to: nat): string
    requires to <= from <= |s|
  {
    s[|s| - from..|s| - to]
  }

  // ---------------------------------------------------------------- computing matches

  lemma {:induction false} RunIs(x: string, u: string, cls: Class)
    requires All(x, cls) && (u == "" || !In(u[0], cls))
    ensures Run(x + u, cls) == |x|
  {
    if x == "" {
      assert x + u == u;
    } else {
      assert (x + u)[1..] == x[1..] + u;
      RunIs(x[1..], u, cls);
    }
  }

  lemma MatchMark(rest: Pattern, s: string, m: seq<nat>)
    requires Match(rest, s) == Some(m)
    ensures Match(Mark(rest), s) == Some([|s|] + m)
  {
  }

  lemma MatchLit(t: string, rest: Pattern, u: string)
    ensures Match(Lit(t, rest), t + u) == Match(rest, u)
  {
    assert (t + u)[|t|..] == u;
  }

  /** A run that ends where the class ends, when the rest matches there. */
  lemma MatchPlus(cls: Class, rest: Pattern, x: string, u: string)
    requires x != "" && All(x, cls) && (u == "" || !In(u[0], cls)) && Match(rest, u).Some?
    ensures Match(Plus(cls, rest), x + u) == Match(rest, u)
  {
    RunIs(x, u, cls);
    assert (x + u)[|x|..] == u;
  }

  lemma MatchStar(cls: Class, rest: Pattern, x: string, u: string)
    requires All(x, cls) && (u == "" || !In(u[0], cls)) && Match(rest, u).Some?
    ensures Match(Star(cls, rest), x + u) == Match(rest, u)
  {
    RunIs(x, u, cls);
    assert (x + u)[|x|..] == u;
  }

  /** A run that is one character too greedy and gives it back. */
  lemma MatchPlusBack(cls: Class, rest: Pattern, x: string, c: char, u: string)
    requires x != "" && All(x + [c], cls) && (u == "" || !In(u[0], cls))
    requires Match(rest, u).None? && Match(rest, [c] + u).Some?
    ensures Match(Plus(cls, rest), x + [c] + u) == Match(rest, [c] + u)
  {
    var s := x + [c] + u;
    RunIs(x + [c], u, cls);
    assert s[|x| + 1..] == u;
    assert s[|x|..] == [c] + u;
    assert Longest(rest, s, |x| + 1, 1) == Longest(rest, s, |x|, 1);
  }

  // ---------------------------------------------------------------- what a match says

  lemma {:induction false} RunSound(s: string, cls: Class, n: nat)
    requires n <= Run(s, cls)
    ensures All(s[..n], cls)
  {
    if n > 0 {
      RunSound(s[1..], cls, n - 1);
      assert s[..n] == [s[0]] + s[1..][..n - 1];
    }
  }

  lemma {:induction false} LongestSound(rest: Pattern, s: string, n: nat, least: nat) returns (k: nat)
    requires n <= |s| && Longest(rest, s, n, least).Some?
    ensures least <= k <= n && Longest(rest, s, n, least) == Match(rest, s[k..])
    decreases n
  {
    if Match(rest, s[n..]).Some? {
      k := n;
    } else {
      k := LongestSound(rest, s, n - 1, least);
    }
  }

  /** A matched run splits the text into characters of the class and a match of the rest. */
  lemma PlusSound(cls: Class, rest: Pattern, s: string) returns (k: nat)
    requires Match(Plus(cls, rest), s).Some?
    ensures 1 <= k <= |s| && All(s[..k], cls) && Match(Plus(cls, rest), s) == Match(rest, s[k..])
  {
    k := LongestSound(rest, s, Run(s, cls), 1);
    RunSound(s, cls, k);
  }

  lemma StarSound(cls: Class, rest: Pattern, s: string) returns (k: nat)
    requires Match(Star(cls, rest), s).Some?
    ensures k <= |s| && Match(Star(cls, rest), s) == Match(rest, s[k..])
  {
    k := LongestSound(rest, s, Run(s, cls), 0);
  }

  lemma LitSound(t: string, rest: Pattern, s: string)
    requires Match(Lit(t, rest), s).Some?
    ensures t <= s && Match(Lit(t, rest), s) == Match(rest, s[|t|..])
  {
  }

  lemma MarkSound(rest: Pattern, s: string, m: seq<nat>)
    requires Match(Mark(rest), s) == Some(m)
    ensures |m| > 0 && m[0] == |s| && Match(rest, s) == Some(m[1..])
  {
  }

  lemma OpenGroupSound(cls: Class, tail: Pattern, s: string, m: seq<nat>) returns (k: nat)
    requires Match(Mark(Plus(cls, tail)), s) == Some(m)
    ensures |m| > 0 && m[0] == |s| && 1 <= k <= |s| && All(s[..k], cls) && Match(tail, s[k..]) == Some(m[1..])
  {
    MarkSound(Plus(cls, tail), s, m);
    k := PlusSound(cls, tail, s);
  }

  /** A captured run of a class. */
  lemma GroupSound(cls: Class, rest: Pattern, s: string, m: seq<nat>)
    requires Match(Mark(Plus(cls, Mark(rest))), s) == Some(m)
    ensures |m| >= 2 && m[1] < m[0] == |s| && All(s[..m[0] - m[1]], cls)
  {
    var k := OpenGroupSound(cls, Mark(rest), s, m);
    var m1 := m[1..];
    MarkSound(rest, s[k..], m1);
    assert |m| >= 2 && m[1] == m1[0];
  }

  lemma {:induction false} FindSound(p: Pattern, s: string) returns (i: nat)
    requires Find(p, s).Some?
    ensures i <= |s| && Find(p, s) == Match(p, s[i..])
  {
    if Match(p, s).Some? {
      i := 0;
    } else {
      i := FindSound(p, s[1..]);
      i := i + 1;
      assert s[1..][i - 1..] == s[i..];
    }
  }

  /** Nothing in the prefix can start a match, so the search begins after it. */
  lemma {:induction false} FindSkips(p: Pattern, a: string, u: string)
    requires forall i :: 0 <= i < |a| ==> Match(p, a[i..] + u).None?
    ensures Find(p, a + u) == Find(p, u)
  {
    if a == "" {
      assert a + u == u;
    } else {
      assert a[0..] + u == a + u;
      assert (a + u)[1..] == a[1..] + u;
      forall i | 0 <= i < |a[1..]| ensures Match(p, a[1..][i..] + u).None? {
        assert a[1..][i..] == a[i + 1..];
      }
      FindSkips(p, a[1..], u);
    }
  }
}
