/** GetPeerDetails: the BGP sessions in the output of `birdc show protocols all`, with their route counts. */
module BirdDetails {
  import opened Options
  import opened Decimal
  import opened Regex
  import BirdConfig

  // ---------------------------------------------------------------- one line

  /** unicode.IsSpace, by which strings.Fields separates. */
  predicate Separates(c: char) {
    || c == ' ' || '\t' <= c <= '\r' || c == '\U{0085}' || c == '\U{00A0}' || c == '\U{1680}' ||
       '\U{2000}' <= c <= '\U{200A}'
    || c == '\U{2028}' || c == '\U{2029}' || c == '\U{202F}' || c == '\U{205F}' || c == '\U{3000}'
  }

  function Word(s: string): (n: nat)
    ensures n <= |s|
  {
    if s != "" && !Separates(s[0]) then 1 + Word(s[1..]) else 0
  }

  function Fields(s: string): seq<string>
    decreases |s|
  {
    if s == "" then []
    else if Separates(s[0]) then Fields(s[1..])
    else [s[..Word(s)]] + Fields(s[Word(s)..])
  }

  predicate IsHeader(line: string) {
    !(" " <= line) && |Fields(line)| >= 2 && Fields(line)[1] == "BGP"
  }

  function Lower(s: string): (r: string)
    ensures |r| == |s| && forall i :: 0 <= i < |s| ==> !('A' <= r[i] <= 'Z')
    ensures forall i :: 0 <= i < |s| ==> r[i] == s[i] || ('A' <= s[i] <= 'Z' && r[i] as int - s[i] as int == 32)
  {
    seq(|s|, i requires 0 <= i < |s| => if 'A' <= s[i] <= 'Z' then (s[i] as int + 32) as char else s[i])
  }

  datatype Counts = Counts(imported: int, exported: int, preferred: int)

  const NO_ROUTES := Counts(0, 0, 0)

  function Add(a: Counts, b: Counts): Counts {
    Counts(a.imported + b.imported, a.exported + b.exported, a.preferred + b.preferred)
  }

  /** routesRe */
  const PREFERRED_PART := Maybe(Lit(",", Plus(Space, Mark(Plus(Digit, Mark(Lit(" preferred", End)))))))
  const EXPORTED_PART := Lit(",", Plus(Space, Mark(Plus(Digit, Mark(Lit(" exported", PREFERRED_PART))))))
  const ROUTES := Lit("Routes:", Plus(Space, Mark(Plus(Digit, Mark(Lit(" imported", EXPORTED_PART))))))

  function OctalPrefix(s: string): nat
    decreases |s|
  {
    if s == "" then 0
    else
      var n := Octal(s);
      OctalValue(s[..n])
  }

  function Octal(s: string): (n: nat)
    ensures n <= |s| && forall i :: 0 <= i < n ==> '0' <= s[i] <= '7'
  {
    if s != "" && '0' <= s[0] <= '7' then 1 + Octal(s[1..]) else 0
  }

  function OctalValue(s: string): nat
    requires forall i :: 0 <= i < |s| ==> '0' <= s[i] <= '7'
  {
    if s == "" then 0 else OctalValue(s[..|s| - 1]) * 8 + (s[|s| - 1] as int - '0' as int)
  }

  /** fmt.Sscan of digits into an int that was zero: a leading zero means octal, and a number out of range leaves
      zero. */
  function Sscan(s: string): int {
    var n := if s == "" || !AllDigits(s) then 0 else if s[0] == '0' then OctalPrefix(s) else Value(s);
    if n <= MAX_INT64 then n else 0
  }

  /** What a line adds to the session it belongs to. */
  function RoutesOf(line: string): Counts {
    match Find(ROUTES, line)
    case None => NO_ROUTES
    case Some(m) =>
      Counts(Sscan(BirdConfig.Group(line, m, 0)), Sscan(BirdConfig.Group(line, m, 1)),
             Sscan(BirdConfig.Group(line, m, 2)))
  }

  /** Go's addition on int: modulo two to the 64. */
  function Wrap(x: int): int {
    (x + HALF) % (2 * HALF) - HALF
  }

  const HALF: int := 0x8000_0000_0000_0000

  function WrapAll(c: Counts): Counts {
    Counts(Wrap(c.imported), Wrap(c.exported), Wrap(c.preferred))
  }

  datatype Detail = Detail(name: string, state: string, uptime: int, routes: Counts)

  /** The entry a header line begins; `uptime` reads the time since the last change. */
  function Begin(line: string, uptime: string -> int): Detail
    requires IsHeader(line)
  {
    var fields := Fields(line);
    var state, since := if |fields| >= 6 then Lower(fields[5]) else "", if |fields| >= 5 then fields[4] else "";
    Detail(fields[0], state, uptime(since), NO_ROUTES)
  }

  /** A line as the loop takes it: the start of a session, or routes for the session before it. */
  datatype Line = Header(detail: Detail) | Routes(counts: Counts)

  function Classify(line: string, uptime: string -> int): Line {
    if IsHeader(line) then Header(Begin(line, uptime)) else Routes(RoutesOf(line))
  }

  function Each(lines: seq<string>, classify: string -> Line): seq<Line> {
    seq(|lines|, i requires 0 <= i < |lines| => classify(lines[i]))
  }

  function Classified(lines: seq<string>, uptime: string -> int): seq<Line> {
    Each(lines, line => Classify(line, uptime))
  }

  /** The line scanner's buffer holds 65536 bytes, line end included; it stops before a longer line. */
  const MAX_LINE := 65535

  function Scannable(lines: seq<string>): (n: nat)
    ensures n <= |lines| && (forall i :: 0 <= i < n ==> |lines[i]| <= 65535)
    ensures n < |lines| ==> |lines[n]| > 65535
  {
    if lines == [] || |lines[0]| > MAX_LINE then 0 else 1 + Scannable(lines[1..])
  }

  // ---------------------------------------------------------------- what the output says

  /** Where the headers are. */
  function Headers(ls: seq<Line>): seq<nat> {
    if ls == [] then []
    else
      var last := |ls| - 1;
      Headers(ls[..last]) + if ls[last].Header? then [last] else []
  }

  /** The header nearest before the end. */
  function Owner(ls: seq<Line>): Option<nat> {
    if ls == [] then None
    else if ls[|ls| - 1].Header? then Some(|ls| - 1)
    else Owner(ls[..|ls| - 1])
  }

  /** What a line adds to the header `h`, given the header nearest before the line. */
  function Share(line: Line, owner: Option<nat>, h: nat): Counts {
    if line.Routes? && owner == Some(h) then line.counts else NO_ROUTES
  }

  /** The routes of the lines whose nearest preceding header is this one. */
  function Owned(ls: seq<Line>, h: nat): Counts {
    if ls == [] then NO_ROUTES
    else Add(Owned(ls[..|ls| - 1], h), Share(ls[|ls| - 1], Owner(ls[..|ls| - 1]), h))
  }

  /** The routes of all lines after the first header. */
  function AfterFirst(ls: seq<Line>): Counts {
    if ls == [] then NO_ROUTES
    else
      var front, line := ls[..|ls| - 1], ls[|ls| - 1];
      Add(AfterFirst(front), if line.Routes? && Owner(front).Some? then line.counts else NO_ROUTES)
  }

  /** The entry of a header, with the routes it owns. */
  predicate IsEntry(d: Detail, ls: seq<Line>, h: nat) {
    h < |ls| && ls[h].Header? && d == ls[h].detail.(routes := WrapAll(Owned(ls, h)))
  }

  /** One entry a header, in order. */
  ghost predicate Describes(details: seq<Detail>, ls: seq<Line>) {
    var hs := Headers(ls);
    |details| == |hs| && forall k :: 0 <= k < |hs| ==> IsEntry(details[k], ls, hs[k])
  }

  // ---------------------------------------------------------------- one line more

  lemma HeadersMore(ls: seq<Line>, line: Line)
    ensures Headers(ls + [line]) == Headers(ls) + if line.Header? then [|ls|] else []
  {
    assert (ls + [line])[..|ls|] == ls;
  }

  lemma AddNothing(c: Counts)
    ensures Add(c, NO_ROUTES) == c
  {
  }

  /** A line that adds nothing to a header leaves what it owns. */
  lemma OwnedKept(ls: seq<Line>, line: Line, h: nat)
    requires line.Header? || Owner(ls) != Some(h)
    ensures Owned(ls + [line], h) == Owned(ls, h)
  {
    OwnedMore(ls, line, h);
    assert Share(line, Owner(ls), h) == NO_ROUTES;
    AddNothing(Owned(ls, h));
  }

  lemma OwnerMore(ls: seq<Line>, line: Line)
    ensures Owner(ls + [line]) == if line.Header? then Some(|ls|) else Owner(ls)
  {
    assert (ls + [line])[..|ls|] == ls;
  }

  lemma OwnedMore(ls: seq<Line>, line: Line, h: nat)
    ensures Owned(ls + [line], h) == Add(Owned(ls, h), Share(line, Owner(ls), h))
  {
    assert (ls + [line])[..|ls|] == ls;
  }

  lemma AfterFirstMore(ls: seq<Line>, line: Line)
    ensures AfterFirst(ls + [line]) ==
            Add(AfterFirst(ls), if line.Routes? && Owner(ls).Some? then line.counts else NO_ROUTES)
  {
    assert (ls + [line])[..|ls|] == ls;
  }

  lemma Split(ls: seq<Line>) returns (front: seq<Line>, line: Line)
    requires ls != []
    ensures ls == front + [line] && |front| == |ls| - 1
  {
    front, line := ls[..|ls| - 1], ls[|ls| - 1];
  }

  /** The headers are in range and increase, and the owner is the last of them. */
  ghost predicate Ordered(hs: seq<nat>, owner: Option<nat>, n: nat) {
    && (forall k :: 0 <= k < |hs| ==> hs[k] < n)
    && (forall j, k :: 0 <= j < k < |hs| ==> hs[j] < hs[k])
    && owner == (if hs == [] then None else Some(hs[|hs| - 1]))
  }

  lemma {:induction false} HeadersOrdered(ls: seq<Line>)
    ensures Ordered(Headers(ls), Owner(ls), |ls|)
    decreases |ls|
  {
    if ls != [] {
      var front, line := Split(ls);
      HeadersOrdered(front);
      HeadersMore(front, line);
      OwnerMore(front, line);
    }
  }

  /** A header yet to come owns nothing. */
  lemma {:induction false} NothingOwned(ls: seq<Line>, h: nat)
    requires h >= |ls|
    ensures Owned(ls, h) == NO_ROUTES
    decreases |ls|
  {
    if ls != [] {
      var front, line := Split(ls);
      NothingOwned(front, h);
      HeadersOrdered(front);
      OwnedKept(front, line, h);
    }
  }

  // ---------------------------------------------------------------- the loop

  /** The finished entries, and the one still being added to. */
  function All(details: seq<Detail>, current: Option<Detail>): seq<Detail> {
    match current
    case None => details
    case Some(d) => details + [d]
  }

  /** Routes are added to the current session, if there is one. */
  function Credit(current: Option<Detail>, counts: Counts): Option<Detail> {
    match current
    case None => None
    case Some(d) => Some(d.(routes := WrapAll(Add(d.routes, counts))))
  }

  /** One turn of the loop. */
  function Step(details: seq<Detail>, current: Option<Detail>, line: Line): (seq<Detail>, Option<Detail>) {
    match line
    case Header(d) => (All(details, current), Some(d))
    case Routes(counts) => (details, Credit(current, counts))
  }

  function Taken(ls: seq<Line>): (seq<Detail>, Option<Detail>) {
    if ls == [] then ([], None)
    else
      var (details, current) := Taken(ls[..|ls| - 1]);
      Step(details, current, ls[|ls| - 1])
  }

  lemma EntryKept(d: Detail, ls: seq<Line>, line: Line, h: nat)
    requires IsEntry(d, ls, h) && (line.Header? || Owner(ls) != Some(h))
    ensures IsEntry(d, ls + [line], h)
  {
    OwnedKept(ls, line, h);
  }

  lemma EntryBegun(d: Detail, ls: seq<Line>)
    requires d.routes == NO_ROUTES
    ensures IsEntry(d, ls + [Header(d)], |ls|)
  {
    NothingOwned(ls, |ls|);
    OwnedKept(ls, Header(d), |ls|);
    WrapNothing();
  }

  lemma WrapNothing()
    ensures WrapAll(NO_ROUTES) == NO_ROUTES
  {
  }

  lemma EntryCredited(d: Detail, ls: seq<Line>, c: Counts, h: nat)
    requires IsEntry(d, ls, h) && Owner(ls) == Some(h)
    ensures IsEntry(d.(routes := WrapAll(Add(d.routes, c))), ls + [Routes(c)], h)
  {
    OwnedMore(ls, Routes(c), h);
    WrapAdd(Owned(ls, h), c);
  }

  lemma HeaderStep(details: seq<Detail>, ls: seq<Line>, d: Detail)
    requires Describes(details, ls) && d.routes == NO_ROUTES
    ensures Describes(details + [d], ls + [Header(d)])
  {
    var hs, more := Headers(ls), ls + [Header(d)];
    HeadersMore(ls, Header(d));
    forall k | 0 <= k < |hs| + 1 ensures IsEntry((details + [d])[k], more, (hs + [|ls|])[k]) {
      if k < |hs| {
        EntryKept(details[k], ls, Header(d), hs[k]);
      } else {
        EntryBegun(d, ls);
      }
    }
  }

  lemma WrapShift(x: int, k: int)
    ensures Wrap(x + k * (2 * HALF)) == Wrap(x)
  {
    var q := (x + HALF) / (2 * HALF);
    assert (x + k * (2 * HALF) + HALF) / (2 * HALF) == q + k;
  }

  /** Wrapping the summands first makes no difference. */
  lemma WrapSum(x: int, y: int)
    ensures Wrap(Wrap(x) + y) == Wrap(x + y) == Wrap(x + Wrap(y))
  {
    WrapShift(x + y, -((x + HALF) / (2 * HALF)));
    WrapShift(x + y, -((y + HALF) / (2 * HALF)));
  }

  lemma WrapAdd(a: Counts, b: Counts)
    ensures WrapAll(Add(WrapAll(a), b)) == WrapAll(Add(a, b)) == WrapAll(Add(a, WrapAll(b)))
  {
    WrapSum(a.imported, b.imported);
    WrapSum(a.exported, b.exported);
    WrapSum(a.preferred, b.preferred);
  }

  lemma RoutesStep(details: seq<Detail>, current: Option<Detail>, ls: seq<Line>, c: Counts)
    requires Describes(All(details, current), ls) && (current.None? ==> details == [])
    ensures Describes(All(details, Credit(current, c)), ls + [Routes(c)])
  {
    var hs, all := Headers(ls), All(details, current);
    HeadersMore(ls, Routes(c));
    assert hs + [] == hs;
    HeadersOrdered(ls);
    forall k | 0 <= k < |hs| ensures IsEntry(All(details, Credit(current, c))[k], ls + [Routes(c)], hs[k]) {
      if k < |hs| - 1 {
        EntryKept(all[k], ls, Routes(c), hs[k]);
      } else {
        EntryCredited(all[k], ls, c, hs[k]);
      }
    }
  }

  /** Headers begin without routes. */
  ghost predicate Fresh(ls: seq<Line>) {
    forall k :: 0 <= k < |ls| && ls[k].Header? ==> ls[k].detail.routes == NO_ROUTES
  }

  lemma {:induction false} TakenDescribes(ls: seq<Line>)
    requires Fresh(ls)
    ensures var (details, current) := Taken(ls);
            Describes(All(details, current), ls) && (current.None? ==> details == [])
  {
    if ls != [] {
      var front, line := Split(ls);
      assert ls[..|ls| - 1] == front && ls[|ls| - 1] == line && forall k :: 0 <= k < |front| ==> front[k] == ls[k];
      TakenDescribes(front);
      var (details, current) := Taken(front);
      match line
      case Header(d) => HeaderStep(All(details, current), front, d);
      case Routes(counts) => RoutesStep(details, current, front, counts);
    }
  }

  lemma OneMore(lines: seq<string>, i: nat, classify: string -> Line)
    requires i < |lines|
    ensures var ls := Each(lines[..i + 1], classify);
            |ls| == i + 1 && ls[..i] == Each(lines[..i], classify) && ls[i] == classify(lines[i])
  {
    assert lines[..i + 1][..i] == lines[..i];
  }

  lemma StopsThere(lines: seq<string>, i: nat)
    requires i <= |lines| && (forall j :: 0 <= j < i ==> |lines[j]| <= MAX_LINE)
    requires i < |lines| ==> |lines[i]| > MAX_LINE
    ensures Scannable(lines) == i
  {
  }

  /** The loop, given what it makes of a line. */
  method TakeLines(lines: seq<string>, classify: string -> Line) returns (details: seq<Detail>)
    requires forall line :: classify(line).Header? ==> classify(line).detail.routes == NO_ROUTES
    ensures Describes(details, Each(lines[..Scannable(lines)], classify))
  {
    var current: Option<Detail> := None;
    details := [];
    var i := 0;
    while i < |lines| && |lines[i]| <= MAX_LINE
      invariant 0 <= i <= |lines| && forall j :: 0 <= j < i ==> |lines[j]| <= MAX_LINE
      invariant (details, current) == Taken(Each(lines[..i], classify))
    {
      OneMore(lines, i, classify);
      match classify(lines[i]) {
        case Header(d) =>
          if current.Some? {
            details := details + [current.value];
          }
          current := Some(d);
        case Routes(counts) =>
          if current.Some? {
            current := Some(current.value.(routes := WrapAll(Add(current.value.routes, counts))));
          }
      }
      i := i + 1;
    }
    StopsThere(lines, i);
    TakenDescribes(Each(lines[..i], classify));
    if current.Some? {
      details := details + [current.value];
    }
  }

  method GetPeerDetails(lines: seq<string>, uptime: string -> int) returns (details: seq<Detail>)
    ensures Describes(details, Classified(lines[..Scannable(lines)], uptime))
  {
    details := TakeLines(lines, line => Classify(line, uptime));
  }

  // ---------------------------------------------------------------- conservation

  function Total(details: seq<Detail>): Counts {
    if details == [] then NO_ROUTES else Add(Total(details[..|details| - 1]), details[|details| - 1].routes)
  }

  /** What the headers own, summed. */
  function TotalOwned(ls: seq<Line>, hs: seq<nat>): Counts {
    if hs == [] then NO_ROUTES else Add(TotalOwned(ls, hs[..|hs| - 1]), Owned(ls, hs[|hs| - 1]))
  }

  lemma TotalOfMore(ls: seq<Line>, hs: seq<nat>, h: nat)
    ensures TotalOwned(ls, hs + [h]) == Add(TotalOwned(ls, hs), Owned(ls, h))
  {
    assert (hs + [h])[..|hs|] == hs;
  }

  /** Headers that do not own the next line own as much after it as before. */
  lemma {:induction false} OthersUnchanged(ls: seq<Line>, line: Line, hs: seq<nat>)
    requires line.Header? || forall k :: 0 <= k < |hs| ==> Owner(ls) != Some(hs[k])
    ensures TotalOwned(ls + [line], hs) == TotalOwned(ls, hs)
    decreases |hs|
  {
    if hs != [] {
      var front, h := hs[..|hs| - 1], hs[|hs| - 1];
      assert hs == front + [h];
      OthersUnchanged(ls, line, front);
      OwnedKept(ls, line, h);
      TotalOfMore(ls, front, h);
      TotalOfMore(ls + [line], front, h);
    }
  }

  lemma TotalAtHeader(ls: seq<Line>, line: Line)
    requires line.Header?
    ensures TotalOwned(ls + [line], Headers(ls) + [|ls|]) == TotalOwned(ls, Headers(ls))
  {
    OthersUnchanged(ls, line, Headers(ls));
    NothingOwned(ls, |ls|);
    OwnedKept(ls, line, |ls|);
    TotalOfMore(ls + [line], Headers(ls), |ls|);
    AddNothing(TotalOwned(ls, Headers(ls)));
  }

  lemma TotalAtRoutes(ls: seq<Line>, line: Line)
    requires line.Routes? && Headers(ls) != []
    ensures TotalOwned(ls + [line], Headers(ls)) == Add(TotalOwned(ls, Headers(ls)), line.counts)
  {
    var hs := Headers(ls);
    var front, h := hs[..|hs| - 1], hs[|hs| - 1];
    assert hs == front + [h];
    HeadersOrdered(ls);
    OthersUnchanged(ls, line, front);
    OwnedMore(ls, line, h);
    TotalOfMore(ls, front, h);
    TotalOfMore(ls + [line], front, h);
  }

  lemma {:induction false} OwnedIsAfterFirst(ls: seq<Line>)
    ensures TotalOwned(ls, Headers(ls)) == AfterFirst(ls)
    decreases |ls|
  {
    if ls != [] {
      var front, line := Split(ls);
      OwnedIsAfterFirst(front);
      HeadersMore(front, line);
      AfterFirstMore(front, line);
      HeadersOrdered(front);
      AddNothing(AfterFirst(front));
      if line.Header? {
        TotalAtHeader(front, line);
      } else {
        assert Headers(ls) == Headers(front);
        if Headers(front) != [] {
          TotalAtRoutes(front, line);
        }
      }
    }
  }

  lemma WrapTotal(a: Counts, a': Counts, b: Counts)
    requires WrapAll(a) == WrapAll(a')
    ensures WrapAll(Add(a, WrapAll(b))) == WrapAll(Add(a', b))
  {
    WrapAdd(a, b);
    WrapAdd(a', b);
  }

  predicate Fits(c: Counts) {
    WrapAll(c) == c
  }

  lemma {:induction false} TotalIsOwned(details: seq<Detail>, ls: seq<Line>, hs: seq<nat>)
    requires |details| == |hs| && forall k :: 0 <= k < |hs| ==> details[k].routes == WrapAll(Owned(ls, hs[k]))
    ensures WrapAll(Total(details)) == WrapAll(TotalOwned(ls, hs))
    ensures (forall k :: 0 <= k < |hs| ==> Fits(Owned(ls, hs[k]))) ==> Total(details) == TotalOwned(ls, hs)
    decreases |hs|
  {
    if hs != [] {
      var last := |hs| - 1;
      TotalIsOwned(details[..last], ls, hs[..last]);
      WrapTotal(Total(details[..last]), TotalOwned(ls, hs[..last]), Owned(ls, hs[last]));
    }
  }

  /** Every route line after the first header is counted for one session, once: the totals agree modulo two to the 64,
      and exactly if no session's own total overflows. */
  lemma RoutesConserved(details: seq<Detail>, ls: seq<Line>)
    requires Describes(details, ls)
    ensures WrapAll(Total(details)) == WrapAll(AfterFirst(ls))
    ensures (forall k :: 0 <= k < |Headers(ls)| ==> Fits(Owned(ls, Headers(ls)[k]))) ==>
              Total(details) == AfterFirst(ls)
  {
    var hs := Headers(ls);
    forall k | 0 <= k < |hs| ensures details[k].routes == WrapAll(Owned(ls, hs[k])) {
      assert IsEntry(details[k], ls, hs[k]);
    }
    TotalIsOwned(details, ls, hs);
    OwnedIsAfterFirst(ls);
  }

  // ---------------------------------------------------------------- reading a header

  predicate IsWord(s: string) {
    s != "" && forall i :: 0 <= i < |s| ==> !Separates(s[i])
  }

  predicate IsGap(s: string) {
    s != "" && forall i :: 0 <= i < |s| ==> Separates(s[i])
  }

  /** The words of a line, a gap between any two. */
  function Spaced(words: seq<string>, gap: string): string {
    if words == [] then "" else if |words| == 1 then words[0] else words[0] + (gap + Spaced(words[1..], gap))
  }

  lemma {:induction false} WordEnds(w: string, rest: string)
    requires (forall i :: 0 <= i < |w| ==> !Separates(w[i])) && (rest == "" || Separates(rest[0]))
    ensures Word(w + rest) == |w|
  {
    if w == "" {
      assert w + rest == rest;
    } else {
      assert (w + rest)[1..] == w[1..] + rest;
      WordEnds(w[1..], rest);
    }
  }

  lemma {:induction false} GapGoes(gap: string, rest: string)
    requires forall i :: 0 <= i < |gap| ==> Separates(gap[i])
    ensures Fields(gap + rest) == Fields(rest)
  {
    if gap == "" {
      assert gap + rest == rest;
    } else {
      assert (gap + rest)[1..] == gap[1..] + rest;
      GapGoes(gap[1..], rest);
    }
  }

  lemma WordFirst(w: string, rest: string)
    requires IsWord(w) && (rest == "" || Separates(rest[0]))
    ensures Fields(w + rest) == [w] + Fields(rest)
  {
    WordEnds(w, rest);
    assert (w + rest)[..|w|] == w && (w + rest)[|w|..] == rest && (w + rest)[0] == w[0];
  }

  /** Splitting a line at white space gives its words back. */
  lemma {:induction false} FieldsRead(words: seq<string>, gap: string)
    requires IsGap(gap) && forall i :: 0 <= i < |words| ==> IsWord(words[i])
    ensures Fields(Spaced(words, gap)) == words
  {
    if |words| == 1 {
      assert words[0] + "" == words[0];
      WordFirst(words[0], "");
    } else if |words| > 1 {
      FieldsRead(words[1..], gap);
      WordFirst(words[0], gap + Spaced(words[1..], gap));
      GapGoes(gap, Spaced(words[1..], gap));
    }
  }

  /** An indented line never begins a session. */
  lemma IndentedIsNoHeader(s: string, uptime: string -> int)
    ensures Classify(" " + s, uptime).Routes?
  {
  }

  /** A line of words whose second is BGP begins a session: the first is its name, the sixth, in lower case, its state,
      and its uptime is that of the fifth. */
  lemma HeaderRead(words: seq<string>, gap: string, uptime: string -> int)
    requires IsGap(gap) && (forall i :: 0 <= i < |words| ==> IsWord(words[i])) && |words| >= 6 && words[1] == "BGP"
    ensures Classify(Spaced(words, gap), uptime) ==
              Header(Detail(words[0], Lower(words[5]), uptime(words[4]), Counts(0, 0, 0)))
  {
    FieldsRead(words, gap);
    assert Spaced(words, gap)[0] == words[0][0];
  }

  // ---------------------------------------------------------------- reading a line of routes

  /** The line printed for a channel: indented, with or without a count of preferred routes. */
  function RoutesLine(indent: string, gap: string, imported: nat, exported: nat, preferred: Option<nat>): string {
    indent + RoutesText(gap, imported, exported, preferred)
  }

  function RoutesText(gap: string, imported: nat, exported: nat, preferred: Option<nat>): string {
    "Routes:" + (gap + (Print(imported) + (" imported" + ExportedText(exported, preferred))))
  }

  function ExportedText(exported: nat, preferred: Option<nat>): string {
    "," + (" " + (Print(exported) + (" exported" + PreferredText(preferred))))
  }

  function PreferredText(preferred: Option<nat>): string {
    if preferred.None? then "" else "," + (" " + (Print(preferred.value) + (" preferred" + "")))
  }

  lemma {:induction false} NoLeadingZero(n: nat)
    requires n > 0
    ensures Digits(n)[0] != '0'
  {
    if n >= 10 {
      NoLeadingZero(n / 10);
    }
  }

  /** Reading a printed count gives the count, or zero if it is no int64. */
  lemma SscanPrint(n: nat)
    ensures Print(n) != "" && AllDigits(Print(n)) && Sscan(Print(n)) == if n <= MAX_INT64 then n else 0
  {
    DigitsRead(n);
    if n > 0 {
      NoLeadingZero(n);
    } else {
      assert Print(0) == "0" && Octal("0") == 1 && "0"[..1] == "0";
      assert OctalValue("0") == 0;
    }
  }

  /** The digits of a number in base eight. */
  function OctalDigits(n: nat): (s: string)
    ensures |s| > 0 && forall i :: 0 <= i < |s| ==> '0' <= s[i] <= '7'
  {
    if n < 8 then [('0' as int + n) as char] else OctalDigits(n / 8) + [('0' as int + n % 8) as char]
  }

  lemma {:induction false} OctalDigitsRead(lead: string, n: nat)
    requires forall i :: 0 <= i < |lead| ==> lead[i] == '0'
    ensures OctalValue(lead + OctalDigits(n)) == n
  {
    var s, d := lead + OctalDigits(n), OctalDigits(n);
    assert s[..|s| - 1] == lead + d[..|d| - 1] && s[|s| - 1] == d[|d| - 1];
    if n < 8 {
      assert lead + d[..|d| - 1] == lead;
      ZerosRead(lead);
    } else {
      assert d[..|d| - 1] == OctalDigits(n / 8);
      OctalDigitsRead(lead, n / 8);
    }
  }

  lemma {:induction false} ZerosRead(s: string)
    requires forall i :: 0 <= i < |s| ==> s[i] == '0'
    ensures OctalValue(s) == 0
  {
    if s != "" {
      ZerosRead(s[..|s| - 1]);
    }
  }

  lemma {:induction false} OctalRun(s: string, tail: string)
    requires (forall i :: 0 <= i < |s| ==> '0' <= s[i] <= '7') && (tail == "" || !('0' <= tail[0] <= '7'))
    ensures Octal(s + tail) == |s|
  {
    if s == "" {
      assert s + tail == tail;
    } else {
      assert (s + tail)[1..] == s[1..] + tail;
      OctalRun(s[1..], tail);
    }
  }

  /** After a leading zero, digits read in base eight, up to the first eight or nine. */
  lemma SscanOctal(n: nat, tail: string)
    requires AllDigits(tail) && (tail == "" || tail[0] > '7')
    ensures Sscan("0" + OctalDigits(n) + tail) == if n <= MAX_INT64 then n else 0
  {
    var digits := "0" + OctalDigits(n);
    OctalRun(digits, tail);
    OctalDigitsRead("0", n);
    assert (digits + tail)[..|digits|] == digits && (digits + tail)[0] == '0';
  }

  lemma MatchCount(d: string, word: string, rest: Pattern, u: string, m: seq<nat>)
    requires d != "" && AllDigits(d) && word != "" && !IsDigit(word[0]) && Match(rest, u) == Some(m)
    ensures Match(Mark(Plus(Digit, Mark(Lit(word, rest)))), d + (word + u)) == Some([|d + (word + u)|, |word + u|] + m)
  {
    var t := word + u;
    MatchLit(word, rest, u);
    MatchMark(Lit(word, rest), t, m);
    assert forall i :: 0 <= i < |d| ==> In(d[i], Digit);
    assert !In(t[0], Digit);
    MatchPlus(Digit, Mark(Lit(word, rest)), d, t);
    MatchMark(Plus(Digit, Mark(Lit(word, rest))), d + t, [|t|] + m);
    assert [|d + t|] + ([|t|] + m) == [|d + t|, |t|] + m;
  }

  lemma MatchGapCount(lit: string, gap: string, d: string, word: string, rest: Pattern, u: string, m: seq<nat>)
    requires gap != "" && Regex.All(gap, Space) && d != "" && AllDigits(d) && word != "" && !IsDigit(word[0])
    requires Match(rest, u) == Some(m)
    ensures Match(Lit(lit, Plus(Space, Mark(Plus(Digit, Mark(Lit(word, rest)))))), lit + (gap + (d + (word + u)))) ==
            Some([|d + (word + u)|, |word + u|] + m)
  {
    MatchCount(d, word, rest, u, m);
    var inner, t := Mark(Plus(Digit, Mark(Lit(word, rest)))), d + (word + u);
    assert t[0] == d[0] && IsDigit(d[0]);
    MatchPlus(Space, inner, gap, t);
    MatchLit(lit, Plus(Space, inner), gap + t);
  }

  predicate Small(n: Option<nat>) {
    n.None? || n.value <= MAX_INT64
  }

  /** The marks of the optional count. */
  function PreferredMarks(p: Option<nat>): seq<nat> {
    if p.None? then [] else [|Print(p.value) + (" preferred" + "")|, |" preferred" + ""|]
  }

  lemma MatchPreferred(p: Option<nat>)
    requires Small(p)
    ensures Match(PREFERRED_PART, PreferredText(p)) == Some(PreferredMarks(p))
  {
    if p.Some? {
      var d := Print(p.value);
      SscanPrint(p.value);
      assert Match(End, "") == Some([]);
      MatchGapCount(",", " ", d, " preferred", End, "", []);
      assert [|d + (" preferred" + "")|, |" preferred" + ""|] + [] == PreferredMarks(p);
    }
  }

  lemma MatchExported(e: nat, p: Option<nat>) returns (m: seq<nat>)
    requires e <= MAX_INT64 && Small(p)
    ensures Match(EXPORTED_PART, ExportedText(e, p)) == Some(m)
    ensures m == [|Print(e) + (" exported" + PreferredText(p))|, |" exported" + PreferredText(p)|] + PreferredMarks(p)
  {
    SscanPrint(e);
    MatchPreferred(p);
    MatchGapCount(",", " ", Print(e), " exported", PREFERRED_PART, PreferredText(p), PreferredMarks(p));
    m := [|Print(e) + (" exported" + PreferredText(p))|, |" exported" + PreferredText(p)|] + PreferredMarks(p);
  }

  lemma CutAt(line: string, pre: string, d: string, u: string, m: seq<nat>, k: nat)
    requires line == pre + (d + u) && 2 * k + 1 < |m| && m[2 * k] == |d + u| && m[2 * k + 1] == |u|
    ensures BirdConfig.Group(line, m, k) == d
  {
  }

  lemma MatchRoutes(gap: string, i: nat, e: nat, p: Option<nat>) returns (m: seq<nat>)
    requires i <= MAX_INT64 && e <= MAX_INT64 && Small(p) && gap != "" && Regex.All(gap, Space)
    ensures Match(ROUTES, RoutesText(gap, i, e, p)) == Some(m) && |m| == 4 + |PreferredMarks(p)|
    ensures m[0] == |Print(i) + (" imported" + ExportedText(e, p))| && m[1] == |" imported" + ExportedText(e, p)|
    ensures m[2] == |Print(e) + (" exported" + PreferredText(p))| && m[3] == |" exported" + PreferredText(p)|
    ensures m[4..] == PreferredMarks(p)
  {
    SscanPrint(i);
    var rest := MatchExported(e, p);
    MatchGapCount("Routes:", gap, Print(i), " imported", EXPORTED_PART, ExportedText(e, p), rest);
    m := [|Print(i) + (" imported" + ExportedText(e, p))|, |" imported" + ExportedText(e, p)|] + rest;
  }

  /** The indentation cannot begin a match. */
  lemma FindRoutes(indent: string, u: string)
    requires Regex.All(indent, Space) && Match(ROUTES, u).Some?
    ensures Find(ROUTES, indent + u) == Match(ROUTES, u)
  {
    forall i | 0 <= i < |indent| ensures Match(ROUTES, indent[i..] + u).None? {
      assert In(indent[i], Space) && (indent[i..] + u)[0] == indent[i];
      assert "Routes:"[0] == 'R';
    }
    FindSkips(ROUTES, indent, u);
  }

  lemma Regroup(a: string, b: string, c: string, d: string)
    ensures a + (b + (c + d)) == (a + b + c) + d
  {
  }

  /** Where a text stands in a longer one. */
  lemma Stands(pre: string, a: string, b: string, u: string) returns (c: string)
    ensures pre + (a + (b + ("," + (" " + u)))) == c + u
  {
    c := (pre + a + b) + "," + " ";
    Regroup(pre, a, b, "," + (" " + u));
  }

  /** A printed line of routes reads as the counts printed on it. */
  lemma RoutesRead(indent: string, gap: string, i: nat, e: nat, p: Option<nat>)
    requires Regex.All(indent, Space) && gap != "" && Regex.All(gap, Space) && i <= MAX_INT64 && e <= MAX_INT64
    requires Small(p)
    ensures RoutesOf(RoutesLine(indent, gap, i, e, p)) == Counts(i, e, if p.Some? then p.value else 0)
  {
    var m := MatchRoutes(gap, i, e, p);
    FindRoutes(indent, RoutesText(gap, i, e, p));
    CountsAt(indent, gap, i, e, p, m);
    SscanPrint(i);
    SscanPrint(e);
    if p.Some? {
      SscanPrint(p.value);
    }
  }

  /** The text between the marks is each count. */
  lemma CountsAt(indent: string, gap: string, i: nat, e: nat, p: Option<nat>, m: seq<nat>)
    requires |m| == 4 + |PreferredMarks(p)| && m[4..] == PreferredMarks(p)
    requires m[0] == |Print(i) + (" imported" + ExportedText(e, p))| && m[1] == |" imported" + ExportedText(e, p)|
    requires m[2] == |Print(e) + (" exported" + PreferredText(p))| && m[3] == |" exported" + PreferredText(p)|
    ensures var line := RoutesLine(indent, gap, i, e, p);
            && BirdConfig.Group(line, m, 0) == Print(i) && BirdConfig.Group(line, m, 1) == Print(e)
            && BirdConfig.Group(line, m, 2) == (if p.Some? then Print(p.value) else "")
  {
    var line := RoutesLine(indent, gap, i, e, p);
    var u2 := Print(e) + (" exported" + PreferredText(p));
    var a := indent + "Routes:" + gap;
    Regroup(indent, "Routes:", gap, Print(i) + (" imported" + ExportedText(e, p)));
    CutAt(line, a, Print(i), " imported" + ExportedText(e, p), m, 0);
    var b := Stands(a, Print(i), " imported", u2);
    CutAt(line, b, Print(e), " exported" + PreferredText(p), m, 1);
    if p.Some? {
      var c := Stands(b, Print(e), " exported", Print(p.value) + (" preferred" + ""));
      assert m[4] == m[4..][0] && m[5] == m[4..][1];
      CutAt(line, c, Print(p.value), " preferred" + "", m, 2);
    }
  }
}
