/** The BIRD peer file: the template that writes it and the two expressions that read it back. */
module BirdConfig {
  import opened Options
  import opened Decimal
  import opened Names
  import opened Regex

  const FROM := "from dnpeers {\n    "
  const TAIL := ";\n}\n"

  // The second line of the template, `neighbor <lla> % '<iface>' as <asn>;`, in the pieces the scanner tells apart.

  function AsText(asn: int): string {
    " " + ("as" + (" " + (Print(asn) + TAIL)))
  }

  function IfaceText(asn: int, iface: string): string {
    "%" + (" " + ("'" + (iface + ("'" + AsText(asn)))))
  }

  function NeighborLine(asn: int, lla: string, iface: string): string {
    "neighbor" + (" " + (lla + (" " + IfaceText(asn, iface))))
  }

  /** The first line, up to the neighbor line: `protocol bgp dn42_<asn> from dnpeers {`. */
  function ProtocolLine(asn: int): string {
    "protocol" + (" " + ("bgp" + (" " + (ProtocolName(asn) + (" " + FROM)))))
  }

  /** The rendered template. */
  function Render(asn: int, lla: string, iface: string): string {
    ProtocolLine(asn) + NeighborLine(asn, lla, iface)
  }

  lemma Rejoin(a: string, b: string, c: string)
    ensures a + (b + c) == (a + b) + c
  {
  }

  lemma ProtocolLead()
    ensures "protocol" + (" " + ("bgp" + (" " + "dn42_"))) == "protocol bgp dn42_"
  {
  }

  lemma LedBy(name: string, from: string)
    ensures "protocol" + (" " + ("bgp" + (" " + (("dn42_" + name) + from)))) == "protocol bgp dn42_" + (name + from)
  {
    var rest := name + from;
    Rejoin("dn42_", name, from);
    Rejoin(" ", "dn42_", rest);
    Rejoin("bgp", " " + "dn42_", rest);
    Rejoin(" ", "bgp" + (" " + "dn42_"), rest);
    Rejoin("protocol", " " + ("bgp" + (" " + "dn42_")), rest);
    ProtocolLead();
  }

  lemma ProtocolText(asn: int)
    ensures ProtocolLine(asn) == "protocol bgp dn42_" + (Print(asn) + " from dnpeers {\n    ")
  {
    assert " " + FROM == " from dnpeers {\n    ";
    LedBy(Print(asn), " " + FROM);
  }

  lemma AsPart(asn: int)
    ensures "'" + AsText(asn) == "' as " + (Print(asn) + ";\n}\n")
  {
    var rest := Print(asn) + TAIL;
    Rejoin("as", " ", rest);
    Rejoin(" ", "as" + " ", rest);
    Rejoin("'", " " + ("as" + " "), rest);
  }

  lemma QuoteText(rest: string)
    ensures " " + ("%" + (" " + ("'" + rest))) == " % '" + rest
  {
    Rejoin(" ", "'", rest);
    Rejoin("%", " " + "'", rest);
    Rejoin(" ", "%" + (" " + "'"), rest);
  }

  lemma NeighborText(asn: int, lla: string, iface: string)
    ensures NeighborLine(asn, lla, iface) ==
              "neighbor " + (lla + (" % '" + (iface + ("' as " + (Print(asn) + ";\n}\n")))))
  {
    AsPart(asn);
    QuoteText(iface + ("'" + AsText(asn)));
    Rejoin("neighbor", " ", lla + (" " + IfaceText(asn, iface)));
  }

  /** The template as it is written down. */
  lemma RenderedText(asn: int, lla: string, iface: string)
    ensures Render(asn, lla, iface) ==
              "protocol bgp dn42_" + (Print(asn) + " from dnpeers {\n    ") +
              ("neighbor " + (lla + (" % '" + (iface + ("' as " + (Print(asn) + ";\n}\n"))))))
  {
    ProtocolText(asn);
    NeighborText(asn, lla, iface);
  }

  /** neighborRe */
  const AS_PART := Plus(Space, Lit("as", Plus(Space, Mark(Plus(Digit, Mark(End))))))
  const IFACE_PART := Lit("%", Star(Space, Lit("'", Mark(Plus(NonSpace, Mark(Lit("'", AS_PART)))))))
  const NEIGHBOR := Lit("neighbor", Plus(Space, Mark(Lit("fe80:", Plus(HexColon, Mark(Plus(Space, IFACE_PART)))))))

  /** protoNameRe */
  const FROM_PART := Plus(Space, Lit("from", Plus(Space, Lit("dnpeers", End))))
  const PROTOCOL := Lit("protocol", Plus(Space, Lit("bgp", Plus(Space, Mark(Plus(NonSpace, Mark(FROM_PART)))))))

  datatype Scanned = Scanned(asn: int, lla: string, iface: string, proto: string)

  /** Between two marks, or nothing if the marks are not in order. */
  function Group(s: string, m: seq<nat>, k: nat): string {
    if 2 * k + 1 < |m| && m[2 * k + 1] <= m[2 * k] <= |s| then Between(s, m[2 * k], m[2 * k + 1]) else ""
  }

  function ProtocolOf(s: string): string {
    match Find(PROTOCOL, s)
    case Some(m) => Group(s, m, 0)
    case None => ""
  }

  /** What ScanPeers takes out of one file. */
  function Scan(s: string): Option<Scanned> {
    match Find(NEIGHBOR, s)
    case None => None
    case Some(m) =>
      match ParseDigits(Group(s, m, 2))
      case NotANumber => None
      case Number(asn) => Some(Scanned(asn, Group(s, m, 0), Group(s, m, 1), ProtocolOf(s)))
  }

  // ---------------------------------------------------------------- reading back what was written

  /** A link-local address in the form the scanner accepts. */
  predicate LinkLocal(lla: string) {
    |lla| > 5 && lla[..5] == "fe80:" && All(lla[5..], HexColon)
  }

  /** A name without white space. */
  predicate Word(s: string) {
    s != "" && All(s, NonSpace)
  }

  lemma PrintIsDigits(asn: int)
    requires asn > 0
    ensures Print(asn) != "" && All(Print(asn), Digit) && AllDigits(Print(asn)) && Value(Print(asn)) == asn
  {
    DigitsRead(asn);
  }

  lemma MatchNumber(d: string, tail: string)
    requires d != "" && All(d, Digit) && (tail == "" || !IsDigit(tail[0]))
    ensures Match(Mark(Plus(Digit, Mark(End))), d + tail) == Some([|d + tail|, |tail|])
  {
    MatchMark(End, tail, []);
    assert [|tail|] + [] == [|tail|] && [|d + tail|] + [|tail|] == [|d + tail|, |tail|];
    MatchPlus(Digit, Mark(End), d, tail);
    MatchMark(Plus(Digit, Mark(End)), d + tail, [|tail|]);
  }

  lemma MatchAs(asn: int)
    requires asn > 0
    ensures Match(AS_PART, AsText(asn)) == Some([|Print(asn) + TAIL|, |TAIL|])
  {
    PrintIsDigits(asn);
    var number, u := Mark(Plus(Digit, Mark(End))), Print(asn) + TAIL;
    MatchNumber(Print(asn), TAIL);
    assert u[0] == Print(asn)[0] && In(Print(asn)[0], Digit);
    MatchPlus(Space, number, " ", u);
    MatchLit("as", Plus(Space, number), " " + u);
    MatchPlus(Space, Lit("as", Plus(Space, number)), " ", "as" + (" " + u));
  }

  /** The quoted name: the run takes the closing quote too, and gives it back. */
  lemma MatchQuoted(rest: Pattern, iface: string, t: string, m: seq<nat>)
    requires Word(iface) && t != "" && IsSpace(t[0]) && Match(rest, t) == Some(m)
    ensures Match(Mark(Plus(NonSpace, Mark(Lit("'", rest)))), iface + ("'" + t)) ==
              Some([|iface + ("'" + t)|, |"'" + t|] + m)
  {
    var mark, u := Mark(Lit("'", rest)), iface + ("'" + t);
    QuoteAlone(rest, t, m);
    MatchPlusBack(NonSpace, mark, iface, '\'', t);
    assert iface + ['\''] + t == u;
    MatchMark(Plus(NonSpace, mark), u, [|"'" + t|] + m);
    assert [|u|] + ([|"'" + t|] + m) == [|u|, |"'" + t|] + m;
  }

  /** The closing quote is before the space, not after it. */
  lemma QuoteAlone(rest: Pattern, t: string, m: seq<nat>)
    requires t != "" && IsSpace(t[0]) && Match(rest, t) == Some(m)
    ensures Match(Mark(Lit("'", rest)), t).None? && Match(Mark(Lit("'", rest)), ['\''] + t) == Some([|"'" + t|] + m)
  {
    MatchLit("'", rest, t);
    MatchMark(Lit("'", rest), "'" + t, m);
    assert !("'" <= t);
  }

  lemma MatchIface(asn: int, iface: string)
    requires asn > 0 && Word(iface)
    ensures var after := "'" + AsText(asn);
            Match(IFACE_PART, IfaceText(asn, iface)) == Some([|iface + after|, |after|, |Print(asn) + TAIL|, |TAIL|])
  {
    MatchAs(asn);
    var m, after := [|Print(asn) + TAIL|, |TAIL|], "'" + AsText(asn);
    MatchQuoted(AS_PART, iface, AsText(asn), m);
    var body := Mark(Plus(NonSpace, Mark(Lit("'", AS_PART))));
    MatchLit("'", body, iface + after);
    MatchStar(Space, Lit("'", body), " ", "'" + (iface + after));
    MatchLit("%", Star(Space, Lit("'", body)), " " + ("'" + (iface + after)));
    assert [|iface + after|, |after|] + m == [|iface + after|, |after|, |Print(asn) + TAIL|, |TAIL|];
  }

  /** An address and the space after it, whatever follows. */
  lemma MatchHex(rest: Pattern, lla: string, u: string, m: seq<nat>)
    requires LinkLocal(lla) && u != "" && !In(u[0], HexColon) && Match(rest, u) == Some(m)
    ensures Match(Mark(Lit("fe80:", Plus(HexColon, rest))), lla + u) == Some([|lla + u|] + m)
  {
    MatchPlus(HexColon, rest, lla[5..], u);
    MatchLit("fe80:", Plus(HexColon, rest), lla[5..] + u);
    assert lla + u == "fe80:" + (lla[5..] + u);
    MatchMark(Lit("fe80:", Plus(HexColon, rest)), lla + u, m);
  }

  lemma StartsAddress(lla: string, u: string)
    requires LinkLocal(lla)
    ensures lla + u != "" && !In((lla + u)[0], Space)
  {
    assert (lla + u)[0] == lla[..5][0] == 'f';
  }

  /** A literal and a space before a pattern. */
  lemma MatchAfterWord(word: string, rest: Pattern, u: string)
    requires u != "" && !In(u[0], Space) && Match(rest, u).Some?
    ensures Match(Lit(word, Plus(Space, rest)), word + (" " + u)) == Match(rest, u)
  {
    MatchPlus(Space, rest, " ", u);
    MatchLit(word, Plus(Space, rest), " " + u);
  }

  lemma MatchSpaced(rest: Pattern, t: string, m: seq<nat>)
    requires t != "" && !In(t[0], Space) && Match(rest, t) == Some(m)
    ensures Match(Mark(Plus(Space, rest)), " " + t) == Some([|" " + t|] + m)
  {
    MatchPlus(Space, rest, " ", t);
    MatchMark(Plus(Space, rest), " " + t, m);
  }

  lemma MatchAddress(rest: Pattern, lla: string, t: string, m: seq<nat>)
    requires LinkLocal(lla) && t != "" && !In(t[0], Space) && Match(rest, t) == Some(m)
    ensures Match(Lit("neighbor", Plus(Space, Mark(Lit("fe80:", Plus(HexColon, Mark(Plus(Space, rest))))))),
                  "neighbor" + (" " + (lla + (" " + t)))) == Some([|lla + (" " + t)|, |" " + t|] + m)
  {
    MatchSpaced(rest, t, m);
    MatchWordAddress(Mark(Plus(Space, rest)), lla, " " + t, [|" " + t|] + m);
    TwoMarks(|lla + (" " + t)|, |" " + t|, m);
  }

  lemma TwoMarks(a: nat, b: nat, m: seq<nat>)
    ensures [a] + ([b] + m) == [a, b] + m
  {
  }

  lemma MatchWordAddress(rest: Pattern, lla: string, u: string, m: seq<nat>)
    requires LinkLocal(lla) && u != "" && !In(u[0], HexColon) && Match(rest, u) == Some(m)
    ensures Match(Lit("neighbor", Plus(Space, Mark(Lit("fe80:", Plus(HexColon, rest))))),
                  "neighbor" + (" " + (lla + u))) ==
            Some([|lla + u|] + m)
  {
    MatchHex(rest, lla, u, m);
    StartsAddress(lla, u);
    MatchAfterWord("neighbor", Mark(Lit("fe80:", Plus(HexColon, rest))), lla + u);
  }

  /** The marks of the neighbor line, by how much text is left at each. */
  function Marks(asn: int, lla: string, iface: string): seq<nat> {
    var t, after := IfaceText(asn, iface), "'" + AsText(asn);
    [|lla + (" " + t)|, |" " + t|, |iface + after|, |after|, |Print(asn) + TAIL|, |TAIL|]
  }

  lemma MatchNeighbor(asn: int, lla: string, iface: string)
    requires asn > 0 && LinkLocal(lla) && Word(iface)
    ensures Match(NEIGHBOR, NeighborLine(asn, lla, iface)) == Some(Marks(asn, lla, iface))
  {
    MatchIface(asn, iface);
    var after := "'" + AsText(asn);
    var t, m := IfaceText(asn, iface), [|iface + after|, |after|, |Print(asn) + TAIL|, |TAIL|];
    MatchAddress(IFACE_PART, lla, t, m);
    assert [|lla + (" " + t)|, |" " + t|] + m == Marks(asn, lla, iface);
  }

  /** In the first line every n is followed by a 4 or a p. */
  lemma NoNeighborLetters(asn: int, i: nat)
    requires asn > 0 && i < |ProtocolLine(asn)|
    ensures ProtocolLine(asn)[i] == 'n' ==> i + 1 < |ProtocolLine(asn)| && ProtocolLine(asn)[i + 1] != 'e'
  {
    PrintIsDigits(asn);
    var front, d, back := "protocol bgp dn42_", Print(asn), " " + FROM;
    var line := front + d + back;
    assert ProtocolLine(asn) == line;
    if |front| <= i < |front| + |d| {
      assert line[i] == d[i - |front|];
    }
  }

  /** So no part of it can begin a match. */
  lemma NothingBefore(asn: int, u: string, i: nat)
    requires asn > 0 && i < |ProtocolLine(asn)|
    ensures Match(NEIGHBOR, ProtocolLine(asn)[i..] + u).None?
  {
    var line, s, word := ProtocolLine(asn), ProtocolLine(asn)[i..] + u, "neighbor";
    if line[i] == 'n' {
      NoNeighborLetters(asn, i);
      assert s[1] != word[1];
    } else {
      assert s[0] != word[0];
    }
  }

  lemma FindNeighbor(asn: int, lla: string, iface: string)
    requires asn > 0 && LinkLocal(lla) && Word(iface)
    ensures Find(NEIGHBOR, Render(asn, lla, iface)) == Some(Marks(asn, lla, iface))
  {
    MatchNeighbor(asn, lla, iface);
    var a, u := ProtocolLine(asn), NeighborLine(asn, lla, iface);
    forall i | 0 <= i < |a| ensures Match(NEIGHBOR, a[i..] + u).None? {
      NothingBefore(asn, u, i);
    }
    FindSkips(NEIGHBOR, a, u);
  }

  /** Cutting a text at the marks of its end. */
  lemma CutOut(a: string, x: string, b: string)
    ensures Between(a + (x + b), |x + b|, |b|) == x
  {
  }

  lemma Joined(a: string, x: string, y: string, b: string)
    ensures a + (x + (y + b)) == (a + x + y) + b
  {
  }

  lemma GroupAt(s: string, m: seq<nat>, k: nat, a: string, x: string, b: string)
    requires s == a + (x + b) && 2 * k + 1 < |m| && m[2 * k] == |x + b| && m[2 * k + 1] == |b|
    ensures Group(s, m, k) == x
  {
    CutOut(a, x, b);
  }

  /** The three texts in their places. */
  lemma Places(line: string, lla: string, iface: string, d: string)
    ensures var end := " " + ("as" + (" " + (d + TAIL)));
            var t := "%" + (" " + ("'" + (iface + ("'" + end))));
            var s := line + ("neighbor" + (" " + (lla + (" " + t))));
            exists a, b, c :: s == a + (lla + (" " + t)) && s == b + (iface + ("'" + end)) && s == c + (d + TAIL)
  {
    var end := " " + ("as" + (" " + (d + TAIL)));
    var t := "%" + (" " + ("'" + (iface + ("'" + end))));
    var s := line + ("neighbor" + (" " + (lla + (" " + t))));
    var a := line + "neighbor" + " ";
    Joined(line, "neighbor", " ", lla + (" " + t));
    var b := (a + lla + " ") + "%" + " " + "'";
    Joined(a, lla, " ", t);
    assert s == b + (iface + ("'" + end));
    var c := (b + iface + "'") + " " + "as" + " ";
    Joined(b, iface, "'", end);
    assert s == c + (d + TAIL);
  }

  lemma Groups(asn: int, lla: string, iface: string)
    ensures var s, m := Render(asn, lla, iface), Marks(asn, lla, iface);
            Group(s, m, 0) == lla && Group(s, m, 1) == iface && Group(s, m, 2) == Print(asn)
  {
    var s, m, t, after, d := Render(asn, lla, iface), Marks(asn, lla, iface), IfaceText(asn, iface), "'" + AsText(asn),
        Print(asn);
    Places(ProtocolLine(asn), lla, iface, d);
    var a, b, c :| s == a + (lla + (" " + t)) && s == b + (iface + after) && s == c + (d + TAIL);
    GroupAt(s, m, 0, a, lla, " " + t);
    GroupAt(s, m, 1, b, iface, after);
    GroupAt(s, m, 2, c, d, TAIL);
  }

  lemma MatchFrom(u: string)
    ensures Match(Mark(FROM_PART), " " + ("from" + (" " + ("dnpeers" + u)))) ==
              Some([|" " + ("from" + (" " + ("dnpeers" + u)))|])
  {
    var dn := "dnpeers" + u;
    MatchLit("dnpeers", End, u);
    MatchPlus(Space, Lit("dnpeers", End), " ", dn);
    MatchLit("from", Plus(Space, Lit("dnpeers", End)), " " + dn);
    MatchPlus(Space, Lit("from", Plus(Space, Lit("dnpeers", End))), " ", "from" + (" " + dn));
    var t := " " + ("from" + (" " + dn));
    MatchMark(FROM_PART, t, []);
    assert [|t|] + [] == [|t|];
  }

  lemma MatchNamed(name: string, t: string)
    requires Word(name) && t != "" && IsSpace(t[0]) && Match(Mark(FROM_PART), t) == Some([|t|])
    ensures Match(PROTOCOL, "protocol" + (" " + ("bgp" + (" " + (name + t))))) == Some([|name + t|, |t|])
  {
    var named := Plus(NonSpace, Mark(FROM_PART));
    MatchPlus(NonSpace, Mark(FROM_PART), name, t);
    MatchMark(named, name + t, [|t|]);
    assert [|name + t|] + [|t|] == [|name + t|, |t|];
    assert (name + t)[0] == name[0];
    MatchPlus(Space, Mark(named), " ", name + t);
    MatchLit("bgp", Plus(Space, Mark(named)), " " + (name + t));
    var bgp := "bgp" + (" " + (name + t));
    MatchPlus(Space, Lit("bgp", Plus(Space, Mark(named))), " ", bgp);
    MatchLit("protocol", Plus(Space, Lit("bgp", Plus(Space, Mark(named)))), " " + bgp);
  }

  lemma ProtocolIsWord(asn: int)
    requires asn > 0
    ensures Word(ProtocolName(asn))
  {
    PrintIsDigits(asn);
    var name, d := ProtocolName(asn), Print(asn);
    forall i | 0 <= i < |name| ensures In(name[i], NonSpace) {
      if i >= 5 {
        assert name[i] == d[i - 5] && In(d[i - 5], Digit);
      }
    }
  }

  lemma SplitNamed(name: string, from: string, u: string)
    ensures ("protocol" + (" " + ("bgp" + (" " + (name + from))))) + u ==
              "protocol" + (" " + ("bgp" + (" " + (name + (from + u)))))
    ensures "protocol" + (" " + ("bgp" + (" " + (name + (from + u))))) == "protocol bgp " + (name + (from + u))
  {
    assert "protocol" + (" " + ("bgp" + " ")) == "protocol bgp ";
  }

  lemma SplitFrom(u: string)
    ensures (" " + FROM) + u == " " + ("from" + (" " + ("dnpeers" + (" {\n    " + u))))
  {
    assert FROM == "from" + (" " + ("dnpeers" + " {\n    "));
  }

  lemma ProtocolSplit(asn: int, u: string)
    ensures var name, t := ProtocolName(asn), " " + ("from" + (" " + ("dnpeers" + (" {\n    " + u))));
            && ProtocolLine(asn) + u == "protocol" + (" " + ("bgp" + (" " + (name + t))))
            && ProtocolLine(asn) + u == "protocol bgp " + (name + t)
  {
    SplitFrom(u);
    SplitNamed(ProtocolName(asn), " " + FROM, u);
  }

  lemma MatchProtocol(asn: int, u: string)
    requires asn > 0
    ensures ProtocolOf(ProtocolLine(asn) + u) == ProtocolName(asn)
  {
    var name, t := ProtocolName(asn), " " + ("from" + (" " + ("dnpeers" + (" {\n    " + u))));
    ProtocolIsWord(asn);
    MatchFrom(" {\n    " + u);
    MatchNamed(name, t);
    ProtocolSplit(asn, u);
    CutOut("protocol bgp ", name, t);
  }

  lemma QuotedSound(rest: Pattern, t: string, m: seq<nat>)
    requires Match(Lit("%", Star(Space, Lit("'", Mark(Plus(NonSpace, Mark(rest)))))), t) == Some(m)
    ensures |m| >= 2 && m[1] < m[0] <= |t| && All(Between(t, m[0], m[1]), NonSpace)
  {
    var body := Mark(Plus(NonSpace, Mark(rest)));
    LitSound("%", Star(Space, Lit("'", body)), t);
    var k := StarSound(Space, Lit("'", body), t[1..]);
    LitSound("'", body, t[1..][k..]);
    var u := t[k + 2..];
    assert t[1..][k..][1..] == u;
    GroupSound(NonSpace, rest, u, m);
    assert Between(t, m[0], m[1]) == u[..m[0] - m[1]];
  }

  /** A word and white space before a match of the rest. */
  lemma AfterWordSound(word: string, rest: Pattern, s: string) returns (u: string)
    requires Match(Lit(word, Plus(Space, rest)), s).Some?
    ensures |u| <= |s| && s[|s| - |u|..] == u && Match(Lit(word, Plus(Space, rest)), s) == Match(rest, u)
  {
    LitSound(word, Plus(Space, rest), s);
    var k := PlusSound(Space, rest, s[|word|..]);
    u := s[|word| + k..];
    assert s[|word|..][k..] == u;
  }

  /** A captured address, and the text after it. */
  lemma HexSound(rest: Pattern, u: string, m: seq<nat>) returns (v: string)
    requires Match(Mark(Lit("fe80:", Plus(HexColon, Mark(rest)))), u) == Some(m)
    ensures |m| >= 2 && m[1] == |v| < m[0] == |u| && LinkLocal(Between(u, m[0], m[1]))
    ensures u[|u| - |v|..] == v && Match(rest, v) == Some(m[2..])
  {
    MarkSound(Lit("fe80:", Plus(HexColon, Mark(rest))), u, m);
    LitSound("fe80:", Plus(HexColon, Mark(rest)), u);
    var h := PlusSound(HexColon, Mark(rest), u[5..]);
    v := u[5 + h..];
    assert u[5..][h..] == v;
    var m1 := m[1..];
    MarkSound(rest, v, m1);
    assert m1[1..] == m[2..] && m1[0] == m[1];
    assert Between(u, m[0], m[1]) == u[..5 + h];
    assert u[..5 + h][..5] == u[..5] && u[..5 + h][5..] == u[5..][..h];
  }

  lemma AddressSound(rest: Pattern, s: string, m: seq<nat>) returns (t: string)
    requires Match(Lit("neighbor", Plus(Space, Mark(Lit("fe80:", Plus(HexColon, Mark(Plus(Space, rest))))))), s) ==
               Some(m)
    ensures |m| >= 2 && m[1] < m[0] <= |s| && LinkLocal(Between(s, m[0], m[1]))
    ensures |t| < m[1] && s[|s| - |t|..] == t && Match(rest, t) == Some(m[2..])
  {
    var u := AfterWordSound("neighbor", Mark(Lit("fe80:", Plus(HexColon, Mark(Plus(Space, rest))))), s);
    var v := HexSound(Plus(Space, rest), u, m);
    Tail(s, u, m[0], m[1]);
    var j := PlusSound(Space, rest, v);
    t := v[j..];
    TailOfTail(s, u, v, t);
  }

  lemma TailOfTail(s: string, u: string, v: string, t: string)
    requires |t| <= |v| <= |u| <= |s| && s[|s| - |u|..] == u && u[|u| - |v|..] == v && v[|v| - |t|..] == t
    ensures s[|s| - |t|..] == t
  {
  }

  lemma Tail(s: string, u: string, from: nat, to: nat)
    requires |u| <= |s| && s[|s| - |u|..] == u && to <= from <= |u|
    ensures Between(s, from, to) == Between(u, from, to)
  {
    var d := |s| - |u|;
    assert forall i :: 0 <= i < |u| ==> s[d..][i] == s[d + i];
  }

  lemma MatchSound(rest: Pattern, u: string, m: seq<nat>)
    requires var quoted := Lit("%", Star(Space, Lit("'", Mark(Plus(NonSpace, Mark(rest))))));
             Match(Lit("neighbor", Plus(Space, Mark(Lit("fe80:", Plus(HexColon, Mark(Plus(Space, quoted))))))), u) ==
                 Some(m)
    ensures |m| >= 4 && m[1] < m[0] <= |u| && m[3] < m[2] <= |u|
    ensures LinkLocal(Between(u, m[0], m[1])) && Word(Between(u, m[2], m[3]))
  {
    var t := AddressSound(Lit("%", Star(Space, Lit("'", Mark(Plus(NonSpace, Mark(rest)))))), u, m);
    var m2 := m[2..];
    QuotedSound(rest, t, m2);
    WordInTail(u, t, m2[0], m2[1]);
  }

  lemma WordInTail(u: string, t: string, from: nat, to: nat)
    requires |t| <= |u| && u[|u| - |t|..] == t && to < from <= |t| && All(Between(t, from, to), NonSpace)
    ensures Word(Between(u, from, to))
  {
    Tail(u, t, from, to);
  }

  /** Whatever the scanner reports as an address and an interface has the form its expression asks for. */
  lemma ScanSound(s: string)
    requires Scan(s).Some?
    ensures LinkLocal(Scan(s).value.lla) && Word(Scan(s).value.iface)
  {
    var i := FindSound(NEIGHBOR, s);
    var m := Find(NEIGHBOR, s).value;
    MatchSound(Lit("'", AS_PART), s[i..], m);
    Tail(s, s[i..], m[0], m[1]);
    Tail(s, s[i..], m[2], m[3]);
  }

  /** The round trip: scanning a rendered file gives back the AS number, the address, the interface and the
      protocol name if and only if the address is link-local in the scanner's form and the interface is a word. */
  lemma RoundTrip(asn: int, lla: string, iface: string)
    requires 0 < asn <= MAX_INT64
    ensures Scan(Render(asn, lla, iface)) == Some(Scanned(asn, lla, iface, ProtocolName(asn))) <==>
              LinkLocal(lla) && Word(iface)
  {
    var s := Render(asn, lla, iface);
    if LinkLocal(lla) && Word(iface) {
      FindNeighbor(asn, lla, iface);
      Groups(asn, lla, iface);
      PrintIsDigits(asn);
      MatchProtocol(asn, NeighborLine(asn, lla, iface));
    } else if Scan(s).Some? {
      ScanSound(s);
    }
  }
}
