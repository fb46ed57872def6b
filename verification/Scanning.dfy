/** ScanPeers of both managers: what a walk over the two configuration directories finds. */
module Scanning {
  import opened Options
  import opened Decimal
  import opened Names
  import opened Regex
  import BirdConfig

  const SUFFIX := ".conf"

  datatype DirEntry = DirEntry(name: string, isDir: bool)

  predicate IsConf(e: DirEntry) {
    !e.isDir && |e.name| >= |SUFFIX| && e.name[|e.name| - |SUFFIX|..] == SUFFIX
  }

  function Stem(name: string): string
    requires |name| >= |SUFFIX|
  {
    name[..|name| - |SUFFIX|]
  }

  /** What a walk that skips some entries collects. */
  function Found<T>(xs: seq<Option<T>>): seq<T> {
    if xs == [] then []
    else Found(xs[..|xs| - 1]) + match xs[|xs| - 1] { case Some(x) => [x] case None => [] }
  }

  lemma FoundNext<T>(xs: seq<Option<T>>, i: nat)
    requires i < |xs|
    ensures Found(xs[..i + 1]) == Found(xs[..i]) + match xs[i] { case Some(x) => [x] case None => [] }
  {
    assert xs[..i + 1][..i] == xs[..i];
  }

  // ---------------------------------------------------------------- AS numbers of interfaces

  const NUMBER := Mark(Plus(Digit, Mark(End)))
  const COMMENT := Lit("# AutoPeer ASN: ", NUMBER)

  function FirstNumber(p: Pattern, s: string): Parsed {
    match Find(p, s)
    case None => NotANumber
    case Some(m) => ParseDigits(BirdConfig.Group(s, m, 0))
  }

  /** extractASNFromIface */
  function AsnFromName(name: string): Parsed {
    FirstNumber(NUMBER, name)
  }

  /** readASNFromWGConfig */
  function AsnFromText(text: string): Parsed {
    FirstNumber(COMMENT, text)
  }

  /** The name is asked first; the comment in the file only if the name has no usable number. */
  function AsnOf(name: string, text: Option<string>): Parsed {
    match AsnFromName(name)
    case Number(n) => Number(n)
    case NotANumber => if text.Some? then AsnFromText(text.value) else NotANumber
  }

  /** The WireGuard template: only its first line is ever read back. */
  function RenderWg(asn: int, body: string): string {
    "# AutoPeer ASN: " + (Print(asn) + ("\n" + body))
  }

  lemma NumberAt(d: string, tail: string)
    requires d != "" && AllDigits(d) && (tail == "" || !IsDigit(tail[0]))
    ensures Match(NUMBER, d + tail) == Some([|d + tail|, |tail|])
  {
    BirdConfig.MatchNumber(d, tail);
  }

  /** A written configuration tells its AS number. */
  lemma WgRoundTrip(asn: int, body: string)
    requires 0 < asn <= MAX_INT64
    ensures AsnFromText(RenderWg(asn, body)) == Number(asn)
  {
    BirdConfig.PrintIsDigits(asn);
    var d, tail, lead := Print(asn), "\n" + body, "# AutoPeer ASN: ";
    NumberAt(d, tail);
    MatchLit(lead, NUMBER, d + tail);
    BirdConfig.CutOut(lead, d, tail);
  }

  /** A default interface name does not: its digits are the 42 of dn42 followed by the AS number's, so it reads as
      42 times a power of ten more, never as the AS number; and a number that large may be no int64 at all. */
  lemma DefaultNameMisreads(asn: int)
    requires 0 < asn <= MAX_INT64
    ensures var n := 42 * Pow10(|Print(asn)|) + asn;
            AsnFromName(InterfaceName(asn)) == (if n <= MAX_INT64 then Number(n) else NotANumber) && n != asn
  {
    BirdConfig.PrintIsDigits(asn);
    var d := Print(asn);
    var digits := "42" + d;
    assert AllDigits("42");
    ValueConcat("42", d);
    FortyTwo();
    PowPositive(|d|);
    NumberAt(digits, "");
    assert digits + "" == digits && |""| == 0;
    var name := InterfaceName(asn);
    assert name == "dn" + digits;
    forall i | 0 <= i < 2 ensures Match(NUMBER, "dn"[i..] + digits).None? {
      assert ("dn"[i..] + digits)[0] == "dn"[i];
      assert Run("dn"[i..] + digits, Digit) == 0;
    }
    FindSkips(NUMBER, "dn", digits);
    BirdConfig.CutOut("dn", digits, "");
  }

  lemma FortyTwo()
    ensures Value("42") == 42
  {
    assert "42"[..1] == "4" && "4"[..0] == "";
    assert Value("4") == 4;
  }

  lemma {:induction false} PowPositive(k: nat)
    ensures Pow10(k) > 0
  {
    if k > 0 {
      PowPositive(k - 1);
    }
  }

  // ---------------------------------------------------------------- WireGuard rows

  datatype WgRow = WgRow(iface: string, asn: int, pubkey: string, endpoint: string, port: int)

  datatype Dump = Dump(pubkey: string, endpoint: string, port: int)

  /** strconv.Atoi with its error ignored: zero for what is no number, and the nearest int for one out of range. */
  function Atoi(s: string): int {
    var digits := if "-" <= s || "+" <= s then s[1..] else s;
    if digits == "" || !AllDigits(digits) then 0
    else if "-" <= s then -(if Value(digits) <= MAX_INT64 + 1 then Value(digits) else MAX_INT64 + 1)
    else if Value(digits) <= MAX_INT64 then Value(digits)
    else MAX_INT64
  }

  /** The peer and port that the lines of `wg show <iface> dump`, split at tabs, give. */
  function ReadDump(lines: seq<seq<string>>): Dump {
    if lines == [] then Dump("", "", 0)
    else
      var d, f := ReadDump(lines[..|lines| - 1]), lines[|lines| - 1];
      if |f| == 4 then d.(port := Atoi(f[2]))
      else if |f| >= 8 then d.(pubkey := f[0], endpoint := f[2])
      else d
  }

  /** No line at or after `i` is of the interface itself, or of a peer. */
  predicate NoPortFrom(lines: seq<seq<string>>, i: nat) {
    forall k :: i <= k < |lines| ==> |lines[k]| != 4
  }

  predicate NoPeerFrom(lines: seq<seq<string>>, i: nat) {
    forall k :: i <= k < |lines| ==> |lines[k]| < 8
  }

  /** The port is the third field of the last line with four fields, and the key and endpoint are the first and third of
      the last line with eight or more; nothing where there is no such line. */
  ghost predicate ShowsLast(d: Dump, lines: seq<seq<string>>) {
    && (NoPortFrom(lines, 0) ==> d.port == 0)
    && (NoPeerFrom(lines, 0) ==> d.pubkey == "" && d.endpoint == "")
    && (forall i :: 0 <= i < |lines| && |lines[i]| == 4 && NoPortFrom(lines, i + 1) ==> d.port == Atoi(lines[i][2]))
    && (forall i :: 0 <= i < |lines| && |lines[i]| >= 8 && NoPeerFrom(lines, i + 1) ==>
          d.pubkey == lines[i][0] && d.endpoint == lines[i][2])
  }

  lemma {:induction false} PortShown(lines: seq<seq<string>>, i: nat)
    requires i < |lines| && |lines[i]| == 4 && NoPortFrom(lines, i + 1)
    ensures ReadDump(lines).port == Atoi(lines[i][2])
  {
    var last := |lines| - 1;
    if i < last {
      assert |lines[last]| != 4;
      PortShown(lines[..last], i);
    }
  }

  lemma {:induction false} PeerShown(lines: seq<seq<string>>, i: nat)
    requires i < |lines| && |lines[i]| >= 8 && NoPeerFrom(lines, i + 1)
    ensures ReadDump(lines).pubkey == lines[i][0] && ReadDump(lines).endpoint == lines[i][2]
  {
    var last := |lines| - 1;
    if i < last {
      assert |lines[last]| < 8;
      PeerShown(lines[..last], i);
    }
  }

  lemma {:induction false} NothingShown(lines: seq<seq<string>>)
    ensures NoPortFrom(lines, 0) ==> ReadDump(lines).port == 0
    ensures NoPeerFrom(lines, 0) ==> ReadDump(lines).pubkey == "" && ReadDump(lines).endpoint == ""
  {
    if lines != [] {
      NothingShown(lines[..|lines| - 1]);
    }
  }

  lemma DumpShowsLast(lines: seq<seq<string>>)
    ensures ShowsLast(ReadDump(lines), lines)
  {
    NothingShown(lines);
    forall i | 0 <= i < |lines| && |lines[i]| == 4 && NoPortFrom(lines, i + 1)
      ensures ReadDump(lines).port == Atoi(lines[i][2])
    {
      PortShown(lines, i);
    }
    forall i | 0 <= i < |lines| && |lines[i]| >= 8 && NoPeerFrom(lines, i + 1)
      ensures ReadDump(lines).pubkey == lines[i][0] && ReadDump(lines).endpoint == lines[i][2]
    {
      PeerShown(lines, i);
    }
  }

  /** The row of one directory entry, if it has one. */
  function WgRowOf(e: DirEntry, texts: map<string, string>, dumps: map<string, seq<seq<string>>>): Option<WgRow> {
    if !IsConf(e) then None
    else
      var iface := Stem(e.name);
      match AsnOf(iface, if e.name in texts then Some(texts[e.name]) else None)
      case NotANumber => None
      case Number(asn) =>
        if iface !in dumps then None
        else
          var d := ReadDump(dumps[iface]);
          if d.pubkey == "" then None else Some(WgRow(iface, asn, d.pubkey, d.endpoint, d.port))
  }

  /** An entry has a row exactly if it is a file named for an interface, whose name or text gives an AS number and whose
      dump shows a peer; the row is of that interface and shows what the dump shows last. */
  lemma WgRowIff(e: DirEntry, texts: map<string, string>, dumps: map<string, seq<seq<string>>>, k: string)
    requires e.name == k + ".conf"
    ensures var row := WgRowOf(e, texts, dumps);
            && (row.Some? <==>
                  !e.isDir && k in dumps && ReadDump(dumps[k]).pubkey != "" &&
                  (AsnFromName(k).Number? || (e.name in texts && AsnFromText(texts[e.name]).Number?)))
            && (row.Some? ==>
                  && row.value.iface == k
                  && ShowsLast(Dump(row.value.pubkey, row.value.endpoint, row.value.port), dumps[k])
                  && Number(row.value.asn) ==
                     if AsnFromName(k).Number? then AsnFromName(k) else AsnFromText(texts[e.name]))
  {
    assert Stem(e.name) == k;
    if k in dumps {
      DumpShowsLast(dumps[k]);
    }
  }

  /** A name without the suffix has none, be it a WireGuard or a BIRD file. */
  lemma OtherNamesSkipped(e: DirEntry, texts: map<string, string>, dumps: map<string, seq<seq<string>>>)
    requires e.isDir || forall k: string :: e.name != k + ".conf"
    ensures WgRowOf(e, texts, dumps).None? && BgpRowOf(e, texts).None?
  {
    if !e.isDir && |e.name| >= 5 {
      assert e.name == e.name[..|e.name| - 5] + e.name[|e.name| - 5..];
    }
  }

  /** strconv.Atoi reads a printed int back, and the nearest int of one out of range. */
  lemma AtoiPrint(n: int)
    ensures Atoi(Print(n)) ==
              if n > MAX_INT64 then MAX_INT64 else if n < -MAX_INT64 - 1 then -MAX_INT64 - 1 else n
  {
    DigitsRead(if n < 0 then -n else n);
    if n < 0 {
      assert Print(n)[1..] == Digits(-n);
    } else {
      assert IsDigit(Print(n)[0]);
    }
  }

  /** What begins with neither a digit nor a sign reads as zero, `off` among it. */
  lemma AtoiOther(s: string)
    requires s == "" || !(IsDigit(s[0]) || s[0] == '+' || s[0] == '-')
    ensures Atoi(s) == 0
  {
  }

  function WgRows(entries: seq<DirEntry>, texts: map<string, string>,
                  dumps: map<string, seq<seq<string>>>): seq<WgRow> {
    Found(seq(|entries|, i requires 0 <= i < |entries| => WgRowOf(entries[i], texts, dumps)))
  }

  method ReadDumpLines(lines: seq<seq<string>>) returns (d: Dump)
    ensures d == ReadDump(lines) && ShowsLast(d, lines)
  {
    var pubkey, endpoint, port := "", "", 0;
    for i := 0 to |lines|
      invariant Dump(pubkey, endpoint, port) == ReadDump(lines[..i])
    {
      assert lines[..i + 1][..i] == lines[..i];
      var fields := lines[i];
      if |fields| >= 2 {
        if |fields| == 4 {
          port := Atoi(fields[2]);
        } else if |fields| >= 8 {
          pubkey, endpoint := fields[0], fields[2];
        }
      }
    }
    assert lines[..|lines|] == lines;
    d := Dump(pubkey, endpoint, port);
    DumpShowsLast(lines);
  }

  method ScanWgEntry(e: DirEntry, texts: map<string, string>, dumps: map<string, seq<seq<string>>>)
    returns (row: Option<WgRow>)
    ensures row == WgRowOf(e, texts, dumps)
  {
    if !IsConf(e) {
      return None;
    }
    var iface := Stem(e.name);
    var asn := AsnFromName(iface);
    if asn.NotANumber? && e.name in texts {
      asn := AsnFromText(texts[e.name]);
    }
    if asn.NotANumber? || iface !in dumps {
      return None;
    }
    var d := ReadDumpLines(dumps[iface]);
    if d.pubkey == "" {
      return None;
    }
    row := Some(WgRow(iface, asn.value, d.pubkey, d.endpoint, d.port));
  }

  method ScanWg(entries: seq<DirEntry>, texts: map<string, string>, dumps: map<string, seq<seq<string>>>)
    returns (rows: seq<WgRow>)
    ensures rows == WgRows(entries, texts, dumps)
  {
    rows := [];
    ghost var found := seq(|entries|, i requires 0 <= i < |entries| => WgRowOf(entries[i], texts, dumps));
    for i := 0 to |entries|
      invariant rows == Found(found[..i])
    {
      FoundNext(found, i);
      var row := ScanWgEntry(entries[i], texts, dumps);
      if row.Some? {
        rows := rows + [row.value];
      }
    }
    assert found[..|entries|] == found;
  }

  // ---------------------------------------------------------------- BIRD rows

  datatype BgpRow = BgpRow(file: string, asn: int, lla: string, iface: string, proto: string)

  function BgpRowOf(e: DirEntry, texts: map<string, string>): Option<BgpRow> {
    if !IsConf(e) || e.name !in texts then None
    else
      match BirdConfig.Scan(texts[e.name])
      case None => None
      case Some(s) => Some(BgpRow(e.name, s.asn, s.lla, s.iface, s.proto))
  }

  function BgpRows(entries: seq<DirEntry>, texts: map<string, string>): seq<BgpRow> {
    Found(seq(|entries|, i requires 0 <= i < |entries| => BgpRowOf(entries[i], texts)))
  }

  method ScanBirdEntry(e: DirEntry, texts: map<string, string>) returns (row: Option<BgpRow>)
    ensures row == BgpRowOf(e, texts)
  {
    if !IsConf(e) || e.name !in texts {
      return None;
    }
    var text := texts[e.name];
    var marks := Find(BirdConfig.NEIGHBOR, text);
    if marks.None? {
      return None;
    }
    var lla, iface := BirdConfig.Group(text, marks.value, 0), BirdConfig.Group(text, marks.value, 1);
    var asn := ParseDigits(BirdConfig.Group(text, marks.value, 2));
    if asn.NotANumber? {
      return None;
    }
    row := Some(BgpRow(e.name, asn.value, lla, iface, BirdConfig.ProtocolOf(text)));
  }

  method ScanBird(entries: seq<DirEntry>, texts: map<string, string>) returns (rows: seq<BgpRow>)
    ensures rows == BgpRows(entries, texts)
  {
    rows := [];
    ghost var found := seq(|entries|, i requires 0 <= i < |entries| => BgpRowOf(entries[i], texts));
    for i := 0 to |entries|
      invariant rows == Found(found[..i])
    {
      FoundNext(found, i);
      var row := ScanBirdEntry(entries[i], texts);
      if row.Some? {
        rows := rows + [row.value];
      }
    }
    assert found[..|entries|] == found;
  }
}
