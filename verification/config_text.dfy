// Printing discovery entries to a configuration file and parsing them back.

module ConfigText {
  import opened Decimals
  import opened Entries
  import opened Text
  import opened Wrappers

  /** An entry as the configuration generator has it. */
  datatype Conf = Conf(transport: string, traddr: string, trsvcid: int, hostnqn: string, nqn: string, hostid: string)

  function PrintInt(n: int): string { if n < 0 then "-" + Print(-n) else Print(n) }

  function Words(e: Conf): seq<string>
  {
    ["-t", e.transport, "-a", e.traddr, "-s", PrintInt(e.trsvcid), "-q", e.hostnqn, "-n", e.nqn, "--hostid", e.hostid]
  }

  function Flagged(flag: string, value: string): string { flag + " " + value }

  function Line(e: Conf): string
  {
    Flagged("-t", e.transport) + " " + (Flagged("-a", e.traddr) + " " + (Flagged("-s", PrintInt(e.trsvcid)) + " " + (
    Flagged("-q", e.hostnqn) + " " + (Flagged("-n", e.nqn) + " " + Flagged("--hostid", e.hostid)))))
  }

  function Printed(es: seq<Conf>): string
  {
    if es == [] then [] else Line(es[0]) + "\n" + ("\n" + Printed(es[1..]))
  }

  method EntriesToString(es: seq<Conf>) returns (text: string)
    ensures text == Printed(es)
  {
    hide Line;
    text := "";
    for i := 0 to |es|
      invariant text + Printed(es[i..]) == Printed(es)
    {
      assert es[i..][1..] == es[i + 1..];
      var line := Line(es[i]) + "\n";
      assert text + (line + ("\n" + Printed(es[i + 1..]))) == text + (line + "\n") + Printed(es[i + 1..]);
      text := text + (line + "\n");
    }
    assert Printed(es[|es|..]) == [];
  }

  datatype Flag = Traddr | Transport | Trsvcid | Hostnqn | Hostid | Subsysnqn | CtrlLossTMO | Persistent | Unknown

  function FlagOf(s: string): Flag
  {
    if s == "-a" || s == "--traddr" then Traddr
    else if s == "-t" || s == "--transport" then Transport
    else if s == "-s" || s == "--trsvcid" then Trsvcid
    else if s == "-q" || s == "--hostnqn" then Hostnqn
    else if s == "-I" || s == "--hostid" then Hostid
    else if s == "-n" || s == "--subsysnqn" then Subsysnqn
    else if s == "-p" || s == "--persistent" then Persistent
    else if s == "-l" || s == "--ctrl-loss-tmo" then CtrlLossTMO
    else Unknown
  }

  predicate TakesValue(f: Flag) { f != Persistent && f != Unknown }

  /** The entry with a value set, or nothing when the value is refused. Fields hold no white space, so
      there is none to trim. `valid` says which addresses can be resolved. */
  function SetValue(f: Flag, v: string, e: Entry, valid: string -> bool): Option<Entry>
    requires TakesValue(f)
  {
    match f
    case Traddr => if valid(v) then Some(e.(traddr := v)) else None
    case Transport => if v == "tcp" then Some(e.(transport := v)) else None
    case Trsvcid => (match ParseInt(v) case None => None case Some(n) => Some(e.(trsvcid := n)))
    case Hostnqn => Some(e.(hostnqn := v))
    case Hostid => Some(e.(hostid := v))
    case Subsysnqn => Some(e.(subsysnqn := v))
    case CtrlLossTMO => (match ParseInt(v) case None => None case Some(n) => Some(e.(ctrlLossTMO := Some(n))))
  }

  /** Reading one line: an entry, nothing, an error, or an index out of range after a flag at its end. */
  datatype Result = Got(e: Entry) | Skip | Bad | Crash

  function ParseFields(ws: seq<string>, e: Entry, valid: string -> bool): (r: Result)
    ensures !r.Skip?
  {
    if ws == [] then Got(e)
    else
      var f := FlagOf(ws[0]);
      if f == Unknown then Bad
      else if f == Persistent then ParseFields(ws[1..], e.(persistent := true), valid)
      else if |ws| == 1 then Crash
      else match SetValue(f, ws[1], e, valid)
           case None => Bad
           case Some(e') => ParseFields(ws[2..], e', valid)
  }

  function Blank(): Entry { Entry("", 0, "", "", "", "", false, "", User, None, "") }

  function ParseLine(line: string, valid: string -> bool): Result
  {
    var l := CutHash(TrimSpace(line));
    if l == "" then Skip
    else
      var r := ParseFields(Fields(l), Blank(), valid);
      if r.Got? && !r.e.Verify() then Skip else r
  }

  datatype Parsing = Ok(entries: seq<Entry>) | Error | Panic

  function ParseLines(ls: seq<string>, valid: string -> bool): Parsing
  {
    if ls == [] then Ok([])
    else
      match ParseLine(ls[0], valid)
      case Bad => Error
      case Crash => Panic
      case Skip => ParseLines(ls[1..], valid)
      case Got(e) =>
        (match ParseLines(ls[1..], valid)
         case Ok(es) => Ok([e] + es)
         case Error => Error
         case Panic => Panic)
  }

  /** The loop over the fields of a line. */
  method ReadFields(ws: seq<string>, valid: string -> bool) returns (r: Result)
    ensures r == ParseFields(ws, Blank(), valid)
  {
    hide FlagOf, SetValue;
    var e := Blank();
    var i := 0;
    while i < |ws|
      invariant i <= |ws|
      invariant ParseFields(ws, Blank(), valid) == ParseFields(ws[i..], e, valid)
    {
      var f := FlagOf(ws[i]);
      if f == Unknown {
        return Bad;
      } else if f == Persistent {
        e := e.(persistent := true);
        assert ws[i..][1..] == ws[i + 1..];
      } else {
        i := i + 1;
        if i == |ws| {
          return Crash;
        }
        var next := SetValue(f, ws[i], e, valid);
        if next.None? {
          return Bad;
        }
        e := next.value;
        assert ws[i - 1..][2..] == ws[i + 1..];
      }
      i := i + 1;
    }
    return Got(e);
  }

  /** The loop over the lines of a file. */
  method ReadLines(ls: seq<string>, valid: string -> bool) returns (r: Parsing)
    ensures r == ParseLines(ls, valid)
  {
    hide ParseFields;
    var entries: seq<Entry> := [];
    for i := 0 to |ls|
      invariant ParseLines(ls, valid) == Prefixed(entries, ParseLines(ls[i..], valid))
    {
      assert ls[i..][1..] == ls[i + 1..];
      var line := CutHash(TrimSpace(ls[i]));
      if line == "" {
        continue;
      }
      var got := ReadFields(Fields(line), valid);
      if got.Bad? {
        return Error;
      } else if got.Crash? {
        return Panic;
      }
      if got.e.Verify() {
        PrefixedMore(entries, got.e, ParseLines(ls[i + 1..], valid));
        entries := entries + [got.e];
      }
    }
    return Ok(entries);
  }

  function Prefixed(es: seq<Entry>, p: Parsing): Parsing
  {
    if p.Ok? then Ok(es + p.entries) else p
  }

  lemma PrefixedMore(es: seq<Entry>, e: Entry, p: Parsing)
    ensures Prefixed(es + [e], p) == Prefixed(es, Prefixed([e], p))
  {
    if p.Ok? { assert es + [e] + p.entries == es + ([e] + p.entries); }
  }

  /** How often an entry stays: the timeout is a pointer, so entries with one are never equal. */
  function Kept(es: seq<Entry>, e: Entry): nat
  {
    if e.ctrlLossTMO.None? && e in es then 1 else multiset(es)[e]
  }

  method RemoveDupEntries(es: seq<Entry>) returns (us: seq<Entry>)
    ensures forall e :: multiset(us)[e] == Kept(es, e)
    ensures forall e: Entry :: e.ctrlLossTMO.Some? ==> multiset(us)[e] == multiset(es)[e]
    ensures forall e: Entry :: e.ctrlLossTMO.None? ==> multiset(us)[e] == if e in es then 1 else 0
  {
    us := [];
    for i := 0 to |es|
      invariant forall e :: multiset(us)[e] == Kept(es[..i], e)
    {
      assert es[..i + 1] == es[..i] + [es[i]];
      assert multiset(es[..i + 1]) == multiset(es[..i]) + multiset{es[i]};
      assert es[i] in us <==> multiset(us)[es[i]] > 0;
      if es[i].ctrlLossTMO.Some? || es[i] !in us {
        us := us + [es[i]];
      }
    }
    assert es[..|es|] == es;
    assert forall e :: e in es <==> multiset(es)[e] > 0;
  }

  /** One file: its lines in order, then without duplicates. */
  method Parse(text: string, valid: string -> bool) returns (r: Parsing)
    ensures var p := ParseLines(Lines(text), valid);
            if p.Ok? then r.Ok? && forall e :: multiset(r.entries)[e] == Kept(p.entries, e) else r == p
    ensures var p := ParseLines(Lines(text), valid);
            p.Ok? ==> r.Ok? && forall e: Entry :: e.ctrlLossTMO.Some? ==>
              multiset(r.entries)[e] == multiset(p.entries)[e]
    ensures var p := ParseLines(Lines(text), valid);
            p.Ok? ==> r.Ok? && forall e: Entry :: e.ctrlLossTMO.None? ==>
              multiset(r.entries)[e] == if e in p.entries then 1 else 0
  {
    r := ReadLines(Lines(text), valid);
    if r.Ok? {
      var us := RemoveDupEntries(r.entries);
      r := Ok(us);
    }
  }

  /** The entry that a printed line stands for. */
  function Of(e: Conf): Entry
  {
    Entry(e.transport, e.trsvcid, e.traddr, e.hostnqn, e.hostid, e.nqn, false, "", User, None, "")
  }

  predicate CleanBut(e: Conf, valid: string -> bool)
  {
    && e.transport == "tcp" && e.trsvcid != 0 && -0x8000_0000 <= e.trsvcid < 0x8000_0000
    && IsToken(e.traddr) && valid(e.traddr) && IsToken(e.hostnqn) && IsToken(e.nqn)
  }

  predicate Clean(e: Conf, valid: string -> bool) { CleanBut(e, valid) && IsToken(e.hostid) }

  lemma PrintIntBack(n: int)
    ensures ParseInt(PrintInt(n)) == if -0x8000_0000 <= n < 0x8000_0000 then Some(n) else None
  {
    hide Decimals.Print, Decimals.Value;
    if n < 0 {
      PrintValue(-n);
      assert PrintInt(n)[1..] == Print(-n);
    } else {
      ParsePrint(n);
    }
  }

  lemma PrintIntToken(n: int)
    ensures IsToken(PrintInt(n))
  {
    var s := PrintInt(n);
    assert forall i :: 0 <= i < |s| ==> IsDigit(s[i]) || s[i] == '-';
  }

  lemma FieldPair(f: string, v: string, ws: seq<string>, e: Entry, e': Entry, valid: string -> bool)
    requires TakesValue(FlagOf(f)) && SetValue(FlagOf(f), v, e, valid) == Some(e')
    ensures ParseFields([f, v] + ws, e, valid) == ParseFields(ws, e', valid)
  {
    assert ([f, v] + ws)[2..] == ws;
  }

  /** The fields of a printed entry, followed by whatever its last flag has. */
  lemma WordsParse(e: Conf, valid: string -> bool)
    requires CleanBut(e, valid)
    ensures ParseFields(Words(e), Blank(), valid) == Got(Of(e))
    ensures ParseFields(Words(e)[..11], Blank(), valid) == Crash
  {
    hide FlagOf, PrintInt, IsToken;
    FlagsKnown();
    WordsParseTail(e, ["--hostid", e.hostid], valid);
    WordsParseTail(e, ["--hostid"], valid);
    assert Words(e) == Words(e)[..10] + ["--hostid", e.hostid];
    assert Words(e)[..11] == Words(e)[..10] + ["--hostid"];
    assert ["--hostid", e.hostid] == ["--hostid", e.hostid] + [];
    FieldPair("--hostid", e.hostid, [], Of(e).(hostid := ""), Of(e), valid);
  }

  lemma FlagsKnown()
    ensures FlagOf("-t") == Transport && FlagOf("-a") == Traddr && FlagOf("-s") == Trsvcid
    ensures FlagOf("-q") == Hostnqn && FlagOf("-n") == Subsysnqn && FlagOf("--hostid") == Hostid
  {
    assert "-t"[1] == 't' && "-s"[1] == 's' && "-q"[1] == 'q' && "-n"[1] == 'n' && "--hostid"[2] == 'h';
  }

  lemma WordsParseTail(e: Conf, tail: seq<string>, valid: string -> bool)
    requires CleanBut(e, valid)
    ensures ParseFields(Words(e)[..10] + tail, Blank(), valid) == ParseFields(tail, Of(e).(hostid := ""), valid)
  {
    hide FlagOf, ParseFields, ParseInt, PrintInt, IsToken;
    PrintIntBack(e.trsvcid);
    FlagsKnown();
    var e1 := Blank().(transport := "tcp");
    var e2 := e1.(traddr := e.traddr);
    var e3 := e2.(trsvcid := e.trsvcid);
    var e4 := e3.(hostnqn := e.hostnqn);
    var t4 := ["-n", e.nqn] + tail;
    var t3 := ["-q", e.hostnqn] + t4;
    var t2 := ["-s", PrintInt(e.trsvcid)] + t3;
    var t1 := ["-a", e.traddr] + t2;
    FieldPair("-t", e.transport, t1, Blank(), e1, valid);
    FieldPair("-a", e.traddr, t2, e1, e2, valid);
    FieldPair("-s", PrintInt(e.trsvcid), t3, e2, e3, valid);
    FieldPair("-q", e.hostnqn, t4, e3, e4, valid);
    FieldPair("-n", e.nqn, tail, e4, Of(e).(hostid := ""), valid);
    assert Words(e)[..10] + tail == ["-t", e.transport] + t1;
  }

  lemma JoinCons(w: string, ws: seq<string>)
    requires ws != []
    ensures Join([w] + ws) == w + " " + Join(ws)
  {
    assert ([w] + ws)[1..] == ws;
  }

  lemma JoinPair(f: string, v: string, ws: seq<string>)
    requires ws != []
    ensures Join([f, v] + ws) == Flagged(f, v) + " " + Join(ws)
  {
    assert [f, v] + ws == [f] + ([v] + ws);
    JoinCons(v, ws);
    JoinCons(f, [v] + ws);
  }

  lemma LineIsJoin(e: Conf)
    ensures Line(e) == Join(Words(e))
  {
    hide Join, PrintInt, Flagged;
    var t5 := ["--hostid", e.hostid];
    var t4 := ["-n", e.nqn] + t5;
    var t3 := ["-q", e.hostnqn] + t4;
    var t2 := ["-s", PrintInt(e.trsvcid)] + t3;
    var t1 := ["-a", e.traddr] + t2;
    JoinPair("-t", e.transport, t1);
    JoinPair("-a", e.traddr, t2);
    JoinPair("-s", PrintInt(e.trsvcid), t3);
    JoinPair("-q", e.hostnqn, t4);
    JoinPair("-n", e.nqn, t5);
    JoinTwo("--hostid", e.hostid);
    assert Words(e) == ["-t", e.transport] + t1;
  }

  lemma JoinTwo(f: string, v: string)
    ensures Join([f, v]) == Flagged(f, v)
  {
    assert [f, v][1..] == [v];
  }

  lemma TrimNothing(s: string)
    requires s != [] && !IsSpace(s[0]) && !IsSpace(s[|s| - 1])
    ensures TrimSpace(s) == s && TrimSpace(s + " ") == s
  {
    assert (s + " ")[..|s|] == s;
  }

  lemma WordsAreTokens(e: Conf, valid: string -> bool)
    requires CleanBut(e, valid)
    ensures AreTokens(Words(e)[..11])
    ensures IsToken(e.hostid) ==> AreTokens(Words(e))
  {
    PrintIntToken(e.trsvcid);
    hide PrintInt;
    forall i | 0 <= i < 11 ensures IsToken(Words(e)[i]) {
    }
    hide IsToken;
  }

  /** A printed line is read back exactly; without a host id the reader runs off its end. */
  lemma LineParses(e: Conf, valid: string -> bool)
    requires CleanBut(e, valid)
    ensures IsToken(e.hostid) ==> ParseLine(Line(e), valid) == Got(Of(e)) && Lacks(Line(e), IsNewline)
    ensures e.hostid == "" ==> ParseLine(Line(e), valid) == Crash && Lacks(Line(e), IsNewline)
  {
    assert Of(e).Verify() && !IsToken("");
    hide Line, ParseFields, ParseLine, Join, PrintInt, IsToken;
    WordsAreTokens(e, valid);
    WordsParse(e, valid);
    if IsToken(e.hostid) {
      LineIsJoin(e);
      OneLineParse(Words(e), Line(e), valid);
    } else if e.hostid == "" {
      LineWithoutHostid(e);
      OneLineParse(Words(e)[..11], Line(e), valid);
    }
  }

  lemma OneLineParse(ws: seq<string>, line: string, valid: string -> bool)
    requires AreTokens(ws) && ws != [] && (line == Join(ws) || line == Join(ws) + " ")
    ensures Lacks(line, IsNewline)
    ensures var r := ParseFields(ws, Blank(), valid);
            ParseLine(line, valid) == if r.Got? && !r.e.Verify() then Skip else r
  {
    hide ParseFields, Join, Fields;
    JoinIsOneLine(ws);
    FieldsOfJoin(ws);
    TrimNothing(Join(ws));
    CutNothing(Join(ws));
  }

  lemma {:induction false} JoinBlank(ws: seq<string>)
    requires ws != []
    ensures Join(ws + [""]) == Join(ws) + " "
  {
    if |ws| == 1 {
      assert (ws + [""])[1..] == [""];
    } else {
      JoinBlank(ws[1..]);
      assert (ws + [""])[1..] == ws[1..] + [""];
    }
  }

  lemma LineWithoutHostid(e: Conf)
    requires e.hostid == ""
    ensures Line(e) == Join(Words(e)[..11]) + " "
  {
    LineIsJoin(e);
    JoinBlank(Words(e)[..11]);
    assert Words(e) == Words(e)[..11] + [""];
  }

  lemma {:induction false} ParseLinesAppend(a: seq<string>, b: seq<string>, valid: string -> bool)
    ensures ParseLines(a + b, valid)
         == if ParseLines(a, valid).Ok? then Prefixed(ParseLines(a, valid).entries, ParseLines(b, valid))
             else ParseLines(a, valid)
  {
    hide ParseLine;
    if a == [] {
      assert a + b == b;
      assert ParseLines(b, valid).Ok? ==> [] + ParseLines(b, valid).entries == ParseLines(b, valid).entries;
    } else {
      assert (a + b)[1..] == a[1..] + b;
      ParseLinesAppend(a[1..], b, valid);
      if ParseLine(a[0], valid).Got? && ParseLines(a[1..], valid).Ok? && ParseLines(b, valid).Ok? {
        var (e, x, y) := (ParseLine(a[0], valid).e, ParseLines(a[1..], valid).entries, ParseLines(b, valid).entries);
        assert [e] + (x + y) == [e] + x + y;
      }
    }
  }

  function AllOf(es: seq<Conf>): seq<Entry>
  {
    if es == [] then [] else [Of(es[0])] + AllOf(es[1..])
  }

  /** What one printed entry adds to the lines of the file. */
  lemma EntryLines(line: string, rest: string)
    ensures Lines(line + "\n" + ("\n" + rest)) == Lines(line + "\n") + ([""] + Lines(rest))
  {
    hide Lines;
    LinesAppend(line, "\n" + rest);
    LinesCons("", rest);
    assert "" + "\n" + rest == "\n" + rest;
  }

  lemma PrintedParses(es: seq<Conf>, valid: string -> bool)
    requires es != []
    ensures var (p, rest) := (ParseLines(Lines(Line(es[0]) + "\n"), valid), ParseLines(Lines(Printed(es[1..])), valid));
            ParseLines(Lines(Printed(es)), valid) == if p.Ok? then Prefixed(p.entries, rest) else p
  {
    hide Lines, Line;
    EntryLines(Line(es[0]), Printed(es[1..]));
    var rest := Lines(Printed(es[1..]));
    ParseLinesAppend(Lines(Line(es[0]) + "\n"), [""] + rest, valid);
    assert ([""] + rest)[1..] == rest;
    assert ParseLine("", valid) == Skip;
    hide Prefixed;
  }

  ghost predicate AllClean(es: seq<Conf>, valid: string -> bool)
  {
    forall i :: 0 <= i < |es| ==> Clean(es[i], valid)
  }

  lemma {:induction false} CleanParses(es: seq<Conf>, valid: string -> bool)
    requires AllClean(es, valid)
    ensures ParseLines(Lines(Printed(es)), valid) == Ok(AllOf(es))
  {
    if es == [] {
    } else {
      assert Clean(es[0], valid);
      CleanParses(es[1..], valid);
      hide Lines, Printed, Line, ParseLine;
      LineParses(es[0], valid);
      OneLine(Line(es[0]));
      assert ParseLines([Line(es[0])], valid) == Ok([Of(es[0])]) by { OneParsed(Line(es[0]), valid); }
      PrintedParses(es, valid);
    }
  }

  lemma OneParsed(line: string, valid: string -> bool)
    ensures ParseLines([line], valid) == match ParseLine(line, valid)
      case Bad => Error case Crash => Panic case Skip => Ok([]) case Got(e) => Ok([e])
  {
    hide ParseLine;
    assert [line][1..] == [];
    assert ParseLines([], valid) == Ok([]);
  }

  /** Every field that a line can set: a token, and one that its flag accepts. */
  predicate SetCleanly(e: Entry, valid: string -> bool)
  {
    && (e.transport == "" || e.transport == "tcp") && -0x8000_0000 <= e.trsvcid < 0x8000_0000
    && (e.traddr == "" || (IsToken(e.traddr) && valid(e.traddr))) && (e.hostnqn == "" || IsToken(e.hostnqn))
    && (e.subsysnqn == "" || IsToken(e.subsysnqn)) && (e.hostid == "" || IsToken(e.hostid))
    && e.source == User && e.effectiveHostid == ""
  }

  lemma ValueSetCleanly(f: Flag, v: string, e: Entry, valid: string -> bool)
    requires TakesValue(f) && IsToken(v) && SetCleanly(e, valid)
    ensures var r := SetValue(f, v, e, valid); r.Some? ==> SetCleanly(r.value, valid)
  {
    hide IsToken;
  }

  lemma {:induction false} FieldsSetCleanly(ws: seq<string>, e: Entry, valid: string -> bool)
    requires AreTokens(ws) && SetCleanly(e, valid)
    ensures var r := ParseFields(ws, e, valid); r.Got? ==> SetCleanly(r.e, valid)
    decreases |ws|
  {
    assert SetCleanly(e.(persistent := true), valid);
    hide SetCleanly, SetValue, FlagOf, IsToken;
    if ws == [] {
    } else {
      var f := FlagOf(ws[0]);
      if f == Persistent {
        FieldsSetCleanly(ws[1..], e.(persistent := true), valid);
      } else if f != Unknown && |ws| > 1 && SetValue(f, ws[1], e, valid).Some? {
        ValueSetCleanly(f, ws[1], e, valid);
        FieldsSetCleanly(ws[2..], SetValue(f, ws[1], e, valid).value, valid);
      }
    }
  }

  lemma LineSetCleanly(line: string, valid: string -> bool)
    ensures var r := ParseLine(line, valid); r.Got? ==> SetCleanly(r.e, valid) && r.e.Verify()
  {
    var l := CutHash(TrimSpace(line));
    CutLacks(TrimSpace(line));
    FieldsAreTokens(l);
    hide TrimSpace, CutHash, Fields, IsToken, ParseFields;
    FieldsSetCleanly(Fields(l), Blank(), valid);
  }

  lemma {:induction false} ParsedSetCleanly(ls: seq<string>, valid: string -> bool)
    ensures var p := ParseLines(ls, valid);
            p.Ok? ==> forall i :: 0 <= i < |p.entries| ==> SetCleanly(p.entries[i], valid) && p.entries[i].Verify()
  {
    hide SetCleanly, ParseLine;
    if ls == [] {
    } else {
      LineSetCleanly(ls[0], valid);
      ParsedSetCleanly(ls[1..], valid);
    }
  }

  lemma {:induction false} HostidNeeded(es: seq<Conf>, k: nat, valid: string -> bool)
    requires k < |es| && CleanBut(es[k], valid) && es[k].hostid == ""
    ensures !ParseLines(Lines(Printed(es)), valid).Ok?
  {
    hide Lines, Printed, Line, ParseLine, CleanBut;
    PrintedParses(es, valid);
    if k == 0 {
      LineParses(es[0], valid);
      OneLine(Line(es[0]));
      OneParsed(Line(es[0]), valid);
    } else {
      HostidNeeded(es[1..], k - 1, valid);
    }
  }

  lemma {:induction false} AllOfAt(es: seq<Conf>)
    ensures |AllOf(es)| == |es| && forall i :: 0 <= i < |es| ==> AllOf(es)[i] == Of(es[i])
  {
    if es == [] {
    } else {
      AllOfAt(es[1..]);
    }
  }

  /** The file gives back exactly the printed entries. */
  ghost predicate GivesBack(es: seq<Conf>, valid: string -> bool)
  {
    var p := ParseLines(Lines(Printed(es)), valid);
    p.Ok? && forall e :: e in p.entries <==> e in AllOf(es)
  }

  /** Printing and parsing is the identity on sets of entries exactly when every entry is printable:
      transport tcp, a non-zero port, and other fields that are single tokens. */
  lemma PrintParse(es: seq<Conf>, valid: string -> bool)
    ensures GivesBack(es, valid) <==> AllClean(es, valid)
  {
    AllOfAt(es);
    var p := ParseLines(Lines(Printed(es)), valid);
    if AllClean(es, valid) {
      CleanParses(es, valid);
    }
    if GivesBack(es, valid) {
      ParsedSetCleanly(Lines(Printed(es)), valid);
      hide Lines, Printed, ParseLines, IsToken;
      forall i | 0 <= i < |es| ensures Clean(es[i], valid) {
        assert Of(es[i]) == AllOf(es)[i] && Of(es[i]) in p.entries;
        assert SetCleanly(Of(es[i]), valid) && Of(es[i]).Verify();
        if es[i].hostid == "" { HostidNeeded(es, i, valid); }
      }
    }
  }

  /** Each of these entries once, and no others. */
  ghost predicate Once(us: seq<Entry>, es: seq<Entry>)
  {
    forall e :: multiset(us)[e] == if e in es then 1 else 0
  }

  lemma KeptOnce(es: seq<Conf>, entries: seq<Entry>, us: seq<Entry>)
    requires forall e :: multiset(us)[e] == Kept(entries, e)
    ensures entries == AllOf(es) ==> Once(us, AllOf(es))
    ensures Once(us, AllOf(es)) ==> forall e :: e in entries <==> e in AllOf(es)
  {
    AllOfAt(es);
    hide AllOf;
    assert forall e :: e in AllOf(es) ==> e.ctrlLossTMO.None?;
    forall e ensures e in entries <==> Kept(entries, e) > 0 {
      assert e in entries <==> multiset(entries)[e] > 0;
    }
  }

  /** Writing entries out as a file and reading the file in: every entry comes back, once, and nothing else
      does, exactly when every entry is printable. */
  method PrintThenParse(es: seq<Conf>, valid: string -> bool) returns (text: string, r: Parsing)
    ensures text == Printed(es)
    ensures r.Ok? && Once(r.entries, AllOf(es)) <==> AllClean(es, valid)
  {
    hide Printed, Lines, ParseLines, AllOf, AllClean, Once, Kept;
    text := EntriesToString(es);
    r := Parse(text, valid);
    PrintParse(es, valid);
    ghost var p := ParseLines(Lines(text), valid);
    if p.Ok? {
      KeptOnce(es, p.entries, r.entries);
      if AllClean(es, valid) { CleanParses(es, valid); }
    }
  }

  function ParseUint16(s: string): Option<nat>
  {
    if IsNumeral(s) && Value(s) < 0x1_0000 then Some(Value(s)) else None
  }

  /** Host and port of an address, where `split` takes it apart and the host can be resolved. */
  function Endpoint(address: string, split: string -> Option<(string, string)>,
                    valid: string -> bool): Option<(string, nat)>
  {
    match split(address)
    case None => None
    case Some((host, port)) =>
      if !valid(host) then None
      else match ParseUint16(port) case None => None case Some(n) => Some((host, n))
  }

  /** All addresses become entries, or the first error ends it. */
  method CreateEntries(addresses: seq<string>, hostnqn: string, nqn: string, transport: string, hostid: string,
                       split: string -> Option<(string, string)>, valid: string -> bool)
    returns (r: Option<seq<Conf>>)
    ensures r.Some? <==>
      && hostnqn != "" && transport != "" && nqn != "" && hostid != ""
      && forall i :: 0 <= i < |addresses| ==> Endpoint(addresses[i], split, valid).Some?
    ensures r.Some? ==> |r.value| == |addresses| && forall i :: 0 <= i < |addresses| ==>
      var (host, port) := Endpoint(addresses[i], split, valid).value;
      r.value[i] == Conf(transport, host, port, hostnqn, nqn, hostid)
  {
    if hostnqn == "" || transport == "" || nqn == "" || hostid == "" {
      return None;
    }
    var entries: seq<Conf> := [];
    for i := 0 to |addresses|
      invariant |entries| == i
      invariant forall j :: 0 <= j < i ==> Endpoint(addresses[j], split, valid).Some?
      invariant forall j :: 0 <= j < i ==>
        var (host, port) := Endpoint(addresses[j], split, valid).value;
        entries[j] == Conf(transport, host, port, hostnqn, nqn, hostid)
    {
      var parts := split(addresses[i]);
      if parts.None? {
        return None;
      }
      var (host, port) := parts.value;
      if !valid(host) {
        return None;
      }
      var number := ParseUint16(port);
      if number.None? {
        return None;
      }
      entries := entries + [Conf(transport, host, number.value, hostnqn, nqn, hostid)];
    }
    return Some(entries);
  }

  /** Created entries come back from their file exactly when the transport is tcp, no port is 0 and
      every name is a single token. */
  lemma CreatedParse(es: seq<Conf>, hostnqn: string, nqn: string, transport: string, hostid: string,
                     valid: string -> bool)
    requires es != []
    requires forall i :: 0 <= i < |es| ==>
      && 0 <= es[i].trsvcid < 0x1_0000 && valid(es[i].traddr)
      && es[i] == Conf(transport, es[i].traddr, es[i].trsvcid, hostnqn, nqn, hostid)
    ensures GivesBack(es, valid) <==>
      && transport == "tcp" && IsToken(hostnqn) && IsToken(nqn) && IsToken(hostid)
      && forall i :: 0 <= i < |es| ==> es[i].trsvcid != 0 && IsToken(es[i].traddr)
  {
    PrintParse(es, valid);
    hide GivesBack, IsToken;
    assert AllClean(es, valid) ==> Clean(es[0], valid);
  }
}
