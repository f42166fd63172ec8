// What a line of a configuration file means, said about its words and characters.

module ConfigLines {
  import opened Decimals
  import opened Entries
  import opened Text
  import opened Wrappers
  import opened ConfigText

  /** A flag of a line with its value, or one that has none. */
  datatype Arg = Valued(flag: string, value: string) | Bare(flag: string)

  /** How a line of words ends: after a whole flag, at a flag whose value is missing, or at an unknown flag. */
  datatype End = Whole | Missing | Strange

  predicate IsBare(w: string) { w in {"-p", "--persistent"} }

  predicate IsValued(w: string)
  {
    w in {"-a", "--traddr", "-t", "--transport", "-s", "--trsvcid", "-q", "--hostnqn", "-I", "--hostid",
          "-n", "--subsysnqn", "-l", "--ctrl-loss-tmo"}
  }

  /** The words of a line as flags with values, from left to right. */
  function Args(ws: seq<string>): seq<Arg>
  {
    if ws == [] then []
    else if IsBare(ws[0]) then [Bare(ws[0])] + Args(ws[1..])
    else if IsValued(ws[0]) && |ws| > 1 then [Valued(ws[0], ws[1])] + Args(ws[2..])
    else []
  }

  function EndOf(ws: seq<string>): End
  {
    if ws == [] then Whole
    else if IsBare(ws[0]) then EndOf(ws[1..])
    else if !IsValued(ws[0]) then Strange
    else if |ws| == 1 then Missing
    else EndOf(ws[2..])
  }

  /** The value that the last flag with one of two spellings has. */
  function Last(args: seq<Arg>, short: string, long: string): Option<string>
  {
    if args == [] then None
    else
      var rest := Last(args[1..], short, long);
      if rest.Some? then rest
      else if args[0].Valued? && (args[0].flag == short || args[0].flag == long) then Some(args[0].value)
      else None
  }

  /** A value that is refused: an address that cannot be resolved, another transport than tcp, or no 32-bit number. */
  predicate Refused(arg: Arg, valid: string -> bool)
  {
    arg.Valued? && (
      || (arg.flag in {"-a", "--traddr"} && !valid(arg.value))
      || (arg.flag in {"-t", "--transport"} && arg.value != "tcp")
      || (arg.flag in {"-s", "--trsvcid", "-l", "--ctrl-loss-tmo"} && ParseInt(arg.value).None?))
  }

  predicate AnyRefused(args: seq<Arg>, valid: string -> bool)
  {
    exists i :: 0 <= i < |args| && Refused(args[i], valid)
  }

  function TextOr(value: Option<string>, default: string): string { if value.Some? then value.value else default }

  function NumberOr(value: Option<string>, default: Option<int>): Option<int>
  {
    if value.Some? then ParseInt(value.value) else default
  }

  /** Entry `e` is `from` with every field set to the last value given for it. */
  ghost predicate SetBy(e: Entry, from: Entry, args: seq<Arg>)
  {
    && e.transport == TextOr(Last(args, "-t", "--transport"), from.transport)
    && e.traddr == TextOr(Last(args, "-a", "--traddr"), from.traddr)
    && Some(e.trsvcid) == NumberOr(Last(args, "-s", "--trsvcid"), Some(from.trsvcid))
    && e.hostnqn == TextOr(Last(args, "-q", "--hostnqn"), from.hostnqn)
    && e.hostid == TextOr(Last(args, "-I", "--hostid"), from.hostid)
    && e.subsysnqn == TextOr(Last(args, "-n", "--subsysnqn"), from.subsysnqn)
    && e.ctrlLossTMO == NumberOr(Last(args, "-l", "--ctrl-loss-tmo"), from.ctrlLossTMO)
    && (e.persistent <==> from.persistent || exists i :: 0 <= i < |args| && args[i].Bare?)
    && e.hostaddr == from.hostaddr && e.source == from.source && e.effectiveHostid == from.effectiveHostid
  }

  lemma LastFirst(arg: Arg, args: seq<Arg>, short: string, long: string)
    ensures Last([arg] + args, short, long)
         == if Last(args, short, long).Some? then Last(args, short, long) else Last([arg], short, long)
    ensures Last([arg], short, long)
         == if arg.Valued? && (arg.flag == short || arg.flag == long) then Some(arg.value) else None
  {
    assert ([arg] + args)[1..] == args && [arg][1..] == [];
  }

  lemma BareFirst(arg: Arg, args: seq<Arg>)
    ensures (exists i :: 0 <= i < |[arg] + args| && ([arg] + args)[i].Bare?)
       <==> arg.Bare? || exists i :: 0 <= i < |args| && args[i].Bare?
    ensures (exists i :: 0 <= i < |[arg]| && [arg][i].Bare?) <==> arg.Bare?
  {
    var all := [arg] + args;
    assert all[0] == arg && [arg][0] == arg;
    if i :| 0 <= i < |args| && args[i].Bare? { assert all[i + 1].Bare?; }
    if i :| 0 <= i < |all| && all[i].Bare? { assert i > 0 ==> args[i - 1] == all[i]; }
  }

  /** One more flag in front: what follows has the last word. */
  lemma SetByFirst(e: Entry, from: Entry, arg: Arg, args: seq<Arg>, mid: Entry)
    requires SetBy(e, mid, args) && SetBy(mid, from, [arg])
    ensures SetBy(e, from, [arg] + args)
  {
    hide Last, Decimals.ParseInt;
    LastFirst(arg, args, "-t", "--transport");
    LastFirst(arg, args, "-a", "--traddr");
    LastFirst(arg, args, "-s", "--trsvcid");
    LastFirst(arg, args, "-q", "--hostnqn");
    LastFirst(arg, args, "-I", "--hostid");
    LastFirst(arg, args, "-n", "--subsysnqn");
    LastFirst(arg, args, "-l", "--ctrl-loss-tmo");
    BareFirst(arg, args);
  }

  lemma RefusedFirst(arg: Arg, args: seq<Arg>, valid: string -> bool)
    ensures AnyRefused([arg] + args, valid) <==> Refused(arg, valid) || AnyRefused(args, valid)
  {
    var all := [arg] + args;
    assert all[0] == arg && forall i :: 0 <= i < |args| ==> all[i + 1] == args[i];
    if i :| 0 <= i < |all| && Refused(all[i], valid) { assert i > 0 ==> args[i - 1] == all[i]; }
    if i :| 0 <= i < |args| && Refused(args[i], valid) { assert Refused(all[i + 1], valid); }
  }

  /** A flag with a value: refused, or one field set. */
  lemma OneValue(flag: string, value: string, e: Entry, valid: string -> bool)
    requires IsValued(flag)
    ensures TakesValue(FlagOf(flag))
    ensures var next := SetValue(FlagOf(flag), value, e, valid);
      && (next.None? <==> Refused(Valued(flag, value), valid))
      && (next.Some? ==> SetBy(next.value, e, [Valued(flag, value)]))
  {
    hide Last, Decimals.ParseInt;
    var arg := Valued(flag, value);
    LastFirst(arg, [], "-t", "--transport");
    LastFirst(arg, [], "-a", "--traddr");
    LastFirst(arg, [], "-s", "--trsvcid");
    LastFirst(arg, [], "-q", "--hostnqn");
    LastFirst(arg, [], "-I", "--hostid");
    LastFirst(arg, [], "-n", "--subsysnqn");
    LastFirst(arg, [], "-l", "--ctrl-loss-tmo");
    BareFirst(arg, []);
  }

  lemma NoValues(e: Entry)
    ensures SetBy(e, e, [])
  {
  }

  lemma OneBare(flag: string, e: Entry)
    requires IsBare(flag)
    ensures FlagOf(flag) == Persistent && !IsValued(flag) && SetBy(e.(persistent := true), e, [Bare(flag)])
  {
    var arg := Bare(flag);
    assert [arg][1..] == [] && [arg][0] == arg;
    BareFirst(arg, []);
  }

  lemma StrangeFlag(flag: string)
    ensures !IsBare(flag) && !IsValued(flag) <==> FlagOf(flag) == Unknown
  {
  }

  /** Every line of words: it is an entry exactly when every flag is known and has its value and no value is refused,
      and then every field has the last value given for it; a missing value is the only way off its end. */
  lemma {:induction false} WordsMean(ws: seq<string>, e: Entry, valid: string -> bool)
    ensures var (r, args) := (ParseFields(ws, e, valid), Args(ws));
      && (r.Got? <==> EndOf(ws) == Whole && !AnyRefused(args, valid))
      && (r.Crash? <==> EndOf(ws) == Missing && !AnyRefused(args, valid))
      && (r.Got? ==> SetBy(r.e, e, args))
  {
    hide SetBy, AnyRefused, Refused, FlagOf, SetValue, IsBare, IsValued;
    if ws == [] {
      NoValues(e);
      NoneRefused(valid);
    } else {
      StrangeFlag(ws[0]);
      if IsBare(ws[0]) {
        OneBare(ws[0], e);
        WordsMean(ws[1..], e.(persistent := true), valid);
        BareFits(ws[0], valid);
        RefusedFirst(Bare(ws[0]), Args(ws[1..]), valid);
        var r := ParseFields(ws, e, valid);
        if r.Got? { SetByFirst(r.e, e, Bare(ws[0]), Args(ws[1..]), e.(persistent := true)); }
      } else if !IsValued(ws[0]) {
        NoneRefused(valid);
      } else {
        KnownValued(ws[0]);
        if |ws| == 1 {
          NoneRefused(valid);
        } else {
          var arg := Valued(ws[0], ws[1]);
          OneValue(ws[0], ws[1], e, valid);
          RefusedFirst(arg, Args(ws[2..]), valid);
          var next := SetValue(FlagOf(ws[0]), ws[1], e, valid);
          if next.Some? {
            WordsMean(ws[2..], next.value, valid);
            var r := ParseFields(ws, e, valid);
            if r.Got? { SetByFirst(r.e, e, arg, Args(ws[2..]), next.value); }
          }
        }
      }
    }
  }

  lemma NoneRefused(valid: string -> bool)
    ensures !AnyRefused([], valid)
  {
  }

  lemma BareFits(flag: string, valid: string -> bool)
    ensures !Refused(Bare(flag), valid)
  {
  }

  lemma KnownValued(flag: string)
    requires IsValued(flag)
    ensures FlagOf(flag) != Persistent && FlagOf(flag) != Unknown && TakesValue(FlagOf(flag)) && !IsBare(flag)
  {
  }

  // From the characters of a line to its words.

  /** White space by its code points, and the equals sign. */
  predicate IsGap(c: char)
  {
    c as int in {9, 10, 11, 12, 13, 32, 61, 133, 160, 5760, 8192, 8193, 8194, 8195, 8196, 8197, 8198, 8199, 8200,
                 8201, 8202, 8232, 8233, 8239, 8287, 12288}
  }

  /** A word and what stands in front of it. */
  datatype Piece = Piece(gap: string, word: string)

  function Laid(ps: seq<Piece>, tail: string): string
  {
    if ps == [] then tail else ps[0].gap + (ps[0].word + Laid(ps[1..], tail))
  }

  function WordsOf(ps: seq<Piece>): seq<string>
  {
    seq(|ps|, i requires 0 <= i < |ps| => ps[i].word)
  }

  ghost predicate AllGap(s: string) { forall i :: 0 <= i < |s| ==> IsGap(s[i]) }

  ghost predicate IsWord(s: string) { s != [] && forall i :: 0 <= i < |s| ==> !IsGap(s[i]) && s[i] != '#' }

  /** Words with gaps between them; every text without a hash is one. */
  ghost predicate WellLaid(ps: seq<Piece>, tail: string)
  {
    && AllGap(tail)
    && forall i :: 0 <= i < |ps| ==> AllGap(ps[i].gap) && IsWord(ps[i].word) && (i > 0 ==> ps[i].gap != [])
  }

  lemma GapIsSep(c: char)
    ensures IsGap(c) <==> IsSep(c)
  {
  }

  lemma WordIsToken(w: string)
    requires IsWord(w)
    ensures IsToken(w)
  {
    forall i | 0 <= i < |w| ensures !IsSep(w[i]) && !IsHash(w[i]) { GapIsSep(w[i]); }
  }

  lemma {:induction false} FieldsSkip(gap: string, s: string)
    requires AllGap(gap)
    ensures Fields(gap + s) == Fields(s)
  {
    if gap == [] {
      assert gap + s == s;
    } else {
      GapIsSep(gap[0]);
      assert (gap + s)[1..] == gap[1..] + s;
      FieldsSkip(gap[1..], s);
    }
  }

  lemma FieldsWord(w: string, s: string)
    requires IsWord(w) && (s == [] || IsGap(s[0]))
    ensures Fields(w + s) == [w] + Fields(s)
  {
    WordIsToken(w);
    if s != [] { GapIsSep(s[0]); }
    UntilAt(w, s, IsSep);
    assert (w + s)[0] == w[0] && (w + s)[..|w|] == w && (w + s)[|w|..] == s;
  }

  /** What follows a word begins with a gap. */
  lemma LaidStarts(ps: seq<Piece>, tail: string)
    requires AllGap(tail) && (ps != [] ==> AllGap(ps[0].gap) && ps[0].gap != [])
    ensures Laid(ps, tail) == [] || IsGap(Laid(ps, tail)[0])
  {
  }

  lemma {:induction false} FieldsLaid(ps: seq<Piece>, tail: string)
    requires WellLaid(ps, tail)
    ensures Fields(Laid(ps, tail)) == WordsOf(ps)
  {
    hide Fields, IsGap;
    if ps == [] {
      FieldsSkip(tail, []);
      assert tail + [] == tail;
      NoFields();
    } else {
      var rest := ps[1..];
      assert WellLaid(rest, tail) by { assert forall i :: 0 <= i < |rest| ==> rest[i] == ps[i + 1]; }
      FieldsLaid(rest, tail);
      if rest != [] { assert rest[0] == ps[1]; }
      LaidStarts(rest, tail);
      FieldsSkip(ps[0].gap, ps[0].word + Laid(rest, tail));
      FieldsWord(ps[0].word, Laid(rest, tail));
      assert WordsOf(ps) == [ps[0].word] + WordsOf(rest);
    }
  }

  lemma NoFields()
    ensures Fields([]) == []
  {
  }

  lemma {:induction false} LaidLacksHash(ps: seq<Piece>, tail: string)
    requires WellLaid(ps, tail)
    ensures Lacks(Laid(ps, tail), IsHash)
  {
    if ps == [] {
    } else {
      var rest := ps[1..];
      assert WellLaid(rest, tail) by { assert forall i :: 0 <= i < |rest| ==> rest[i] == ps[i + 1]; }
      LaidLacksHash(rest, tail);
    }
  }

  lemma TrimmedMore(s: string, n: nat)
    requires s != [] && IsGap(s[0]) && n < |s| && AllGap(s[1..][..n])
    ensures s[1..][n..] == s[n + 1..] && AllGap(s[..n + 1])
  {
    hide IsGap;
    assert s[..n + 1] == [s[0]] + s[1..][..n];
  }

  lemma TrimmedLess(s: string, n: nat)
    requires s != [] && IsGap(s[|s| - 1]) && n < |s| && AllGap(s[..|s| - 1][n..])
    ensures s[..|s| - 1][..n] == s[..n] && AllGap(s[n..])
  {
    hide IsGap;
    assert s[n..] == s[..|s| - 1][n..] + [s[|s| - 1]];
  }

  /** Trimming takes white space off both ends, and nothing else. */
  lemma {:induction false} TrimLeftIs(s: string)
    ensures exists n: nat :: n <= |s| && TrimLeft(s) == s[n..] && AllGap(s[..n])
  {
    if s != [] && IsSpace(s[0]) {
      TrimLeftIs(s[1..]);
      var n: nat :| n <= |s[1..]| && TrimLeft(s[1..]) == s[1..][n..] && AllGap(s[1..][..n]);
      GapIsSep(s[0]);
      TrimmedMore(s, n);
    } else {
      assert s[0..] == s;
    }
  }

  lemma {:induction false} TrimRightIs(s: string)
    ensures exists n: nat :: n <= |s| && TrimRight(s) == s[..n] && AllGap(s[n..])
  {
    if s != [] && IsSpace(s[|s| - 1]) {
      var t := s[..|s| - 1];
      TrimRightIs(t);
      var n: nat :| n <= |t| && TrimRight(t) == t[..n] && AllGap(t[n..]);
      GapIsSep(s[|s| - 1]);
      TrimmedLess(s, n);
    } else {
      assert s[..|s|] == s;
    }
  }

  lemma {:induction false} FieldsTrimmed(s: string, gap: string)
    requires AllGap(gap)
    ensures Fields(s + gap) == Fields(s)
    decreases |s|
  {
    if s == [] {
      FieldsSkip(gap, []);
      assert gap + [] == gap && [] + gap == gap;
    } else if IsSep(s[0]) {
      assert (s + gap)[1..] == s[1..] + gap;
      FieldsTrimmed(s[1..], gap);
    } else {
      var n := Until(s, IsSep);
      if n < |s| {
        assert s + gap == s[..n] + (s[n..] + gap) && s == s[..n] + s[n..];
        UntilAt(s[..n], s[n..] + gap, IsSep);
        assert (s + gap)[..n] == s[..n] && (s + gap)[n..] == s[n..] + gap;
        FieldsTrimmed(s[n..], gap);
      } else {
        if gap != [] { GapIsSep(gap[0]); }
        UntilAt(s, gap, IsSep);
        assert (s + gap)[..n] == s && (s + gap)[n..] == gap && s[..n] == s && s[n..] == [];
        FieldsSkip(gap, []);
        assert gap + [] == gap;
      }
    }
  }

  lemma CutAt(s: string, comment: string)
    requires Lacks(s, IsHash) && (comment == [] || comment[0] == '#')
    ensures CutHash(s + comment) == s
  {
    UntilAt(s, comment, IsHash);
    assert (s + comment)[..|s|] == s;
  }

  /** White space at the front ends before the comment, and at the end it begins behind it. */
  lemma BeforeHash(s: string, comment: string, n: nat)
    requires n <= |s + comment| && (comment == [] || comment[0] == '#')
    ensures AllGap((s + comment)[..n]) ==> n <= |s|
    ensures n <= |s| && AllGap((s + comment)[n..]) ==> comment == []
  {
    assert !IsGap('#');
    if n > |s| {
      assert (s + comment)[..n][|s|] == '#';
    } else if comment != [] {
      assert (s + comment)[n..][|s| - n] == '#';
    }
  }

  lemma LeftTrimmed(s: string, comment: string)
    requires Lacks(s, IsHash) && (comment == [] || comment[0] == '#')
    ensures exists a :: Lacks(a, IsHash) && Fields(a) == Fields(s) && TrimLeft(s + comment) == a + comment
  {
    hide Fields, TrimLeft, IsGap, AllGap;
    var line := s + comment;
    TrimLeftIs(line);
    var n: nat :| n <= |line| && TrimLeft(line) == line[n..] && AllGap(line[..n]);
    BeforeHash(s, comment, n);
    assert line[n..] == s[n..] + comment && line[..n] == s[..n] && s[..n] + s[n..] == s;
    FieldsSkip(s[..n], s[n..]);
    assert Lacks(s[n..], IsHash);
  }

  lemma RightTrimmed(a: string, comment: string)
    requires Lacks(a, IsHash) && (comment == [] || comment[0] == '#')
    ensures Fields(CutHash(TrimRight(a + comment))) == Fields(a)
  {
    hide Fields, TrimRight, IsGap, AllGap, CutHash;
    var line := a + comment;
    TrimRightIs(line);
    var m: nat :| m <= |line| && TrimRight(line) == line[..m] && AllGap(line[m..]);
    if m <= |a| {
      BeforeHash(a, comment, m);
      assert line == a && a[..m] + a[m..] == a && line[m..] == a[m..];
      FieldsTrimmed(a[..m], a[m..]);
      CutAt(a[..m], []);
      assert a[..m] + [] == line[..m];
    } else {
      assert line[..m] == a + comment[..m - |a|];
      CutAt(a, comment[..m - |a|]);
    }
  }

  /** Trimming and cutting leaves the words alone, wherever the comment begins. */
  lemma FieldsOfLine(s: string, comment: string)
    requires Lacks(s, IsHash) && (comment == [] || comment[0] == '#')
    ensures Fields(CutHash(TrimSpace(s + comment))) == Fields(s)
  {
    hide Fields, CutHash, TrimRight, TrimLeft;
    LeftTrimmed(s, comment);
    var a :| Lacks(a, IsHash) && Fields(a) == Fields(s) && TrimLeft(s + comment) == a + comment;
    RightTrimmed(a, comment);
  }

  /** The entry that no flag has touched. */
  function Empty(): Entry { Entry("", 0, "", "", "", "", false, "", User, None, "") }

  /** Every mandatory flag is there, the port is not 0, and a timeout is at least -1. */
  ghost predicate Mandatory(args: seq<Arg>)
  {
    && Last(args, "-n", "--subsysnqn").Some? && Last(args, "-a", "--traddr").Some?
    && Last(args, "-t", "--transport").Some?
    && Last(args, "-q", "--hostnqn").Some? && Last(args, "-s", "--trsvcid").Some?
    && NumberOr(Last(args, "-s", "--trsvcid"), None) != Some(0)
    && (var tmo := NumberOr(Last(args, "-l", "--ctrl-loss-tmo"), None); tmo.Some? ==> tmo.value >= -1)
  }

  /** Values are words, so they are not empty. */
  lemma {:induction false} LastFrom(ws: seq<string>, short: string, long: string)
    requires forall i :: 0 <= i < |ws| ==> ws[i] != []
    ensures var v := Last(Args(ws), short, long); v.Some? ==> v.value != []
  {
    if ws == [] {
    } else if IsBare(ws[0]) {
      LastFrom(ws[1..], short, long);
    } else if IsValued(ws[0]) && |ws| > 1 {
      LastFrom(ws[2..], short, long);
    }
  }

  lemma MandatoryIs(ws: seq<string>, e: Entry)
    requires (forall i :: 0 <= i < |ws| ==> ws[i] != []) && SetBy(e, Empty(), Args(ws))
    ensures e.Verify() <==> Mandatory(Args(ws))
  {
    hide Last, Args, Decimals.ParseInt;
    LastFrom(ws, "-n", "--subsysnqn");
    LastFrom(ws, "-a", "--traddr");
    LastFrom(ws, "-t", "--transport");
    LastFrom(ws, "-q", "--hostnqn");
  }

  /** Every line, a comment behind it or not: it is in error exactly for a refused value or an unknown flag, runs off
      its end exactly for a missing value, and is an entry exactly when besides every mandatory flag is there. The
      entry has the last value given for each field. */
  lemma LineMeans(ps: seq<Piece>, tail: string, comment: string, valid: string -> bool)
    requires WellLaid(ps, tail) && (comment == [] || comment[0] == '#')
    ensures var r := ParseLine(Laid(ps, tail) + comment, valid);
      var (end, args) := (EndOf(WordsOf(ps)), Args(WordsOf(ps)));
      && (r.Bad? <==> AnyRefused(args, valid) || end == Strange)
      && (r.Crash? <==> end == Missing && !AnyRefused(args, valid))
      && (r.Got? <==> end == Whole && !AnyRefused(args, valid) && Mandatory(args))
      && (r.Got? ==> SetBy(r.e, Empty(), args))
  {
    hide Laid, WordsOf, Fields, CutHash, TrimSpace, ParseFields, SetBy, AnyRefused, Args, EndOf, Mandatory;
    var (s, ws) := (Laid(ps, tail), WordsOf(ps));
    LaidLacksHash(ps, tail);
    FieldsOfLine(s, comment);
    FieldsLaid(ps, tail);
    WordsMean(ws, Empty(), valid);
    var l := CutHash(TrimSpace(s + comment));
    if l == "" {
      NoFields();
      NoWords(valid);
    }
    WordsAreWords(ps, tail);
    var r := ParseFields(ws, Empty(), valid);
    if r.Got? { MandatoryIs(ws, r.e); }
  }

  lemma NoWords(valid: string -> bool)
    ensures EndOf([]) == Whole && Args([]) == [] && !AnyRefused([], valid) && !Mandatory([])
  {
  }

  lemma WordsAreWords(ps: seq<Piece>, tail: string)
    requires WellLaid(ps, tail)
    ensures forall i :: 0 <= i < |WordsOf(ps)| ==> WordsOf(ps)[i] != []
  {
  }

  /** A text is a gap and then something that begins with a word. */
  lemma {:induction false} GapOff(s: string) returns (gap: string, t: string)
    requires Lacks(s, IsHash) && !AllGap(s)
    ensures s == gap + t && AllGap(gap) && Lacks(t, IsHash) && t != [] && !IsGap(t[0])
  {
    hide IsGap;
    if IsGap(s[0]) {
      assert s == [s[0]] + s[1..];
      gap, t := GapOff(s[1..]);
      gap := [s[0]] + gap;
    } else {
      gap, t := [], s;
    }
  }

  /** And that is a word and then a rest that begins with a gap. */
  lemma WordOff(t: string) returns (word: string, rest: string)
    requires Lacks(t, IsHash) && t != [] && !IsGap(t[0])
    ensures t == word + rest && IsWord(word) && Lacks(rest, IsHash) && (rest == [] || IsGap(rest[0]))
  {
    hide IsGap;
    var m := Until(t, IsGap);
    word, rest := t[..m], t[m..];
  }

  lemma LayFirst(gap: string, word: string, ps: seq<Piece>, tail: string)
    requires AllGap(gap) && IsWord(word) && WellLaid(ps, tail) && (Laid(ps, tail) == [] || IsGap(Laid(ps, tail)[0]))
    ensures WellLaid([Piece(gap, word)] + ps, tail)
    ensures Laid([Piece(gap, word)] + ps, tail) == gap + (word + Laid(ps, tail))
  {
    hide IsGap;
    if ps != [] && ps[0].gap == [] { StartsWithGap(ps, tail); }
    var all := [Piece(gap, word)] + ps;
    assert all[1..] == ps;
  }

  lemma StartsWithGap(ps: seq<Piece>, tail: string)
    requires WellLaid(ps, tail) && ps != [] && ps[0].gap == []
    ensures Laid(ps, tail) != [] && !IsGap(Laid(ps, tail)[0])
  {
    hide IsGap;
    assert Laid(ps, tail)[0] == ps[0].word[0];
  }

  /** Every text without a hash is laid out so: there are no other lines. */
  lemma {:induction false} EveryLine(s: string)
    requires Lacks(s, IsHash)
    ensures exists ps, tail :: WellLaid(ps, tail) && Laid(ps, tail) == s
    decreases |s|
  {
    if AllGap(s) {
      assert WellLaid([], s) && Laid([], s) == s;
    } else {
      hide WellLaid, Laid, IsGap, AllGap;
      var gap, t := GapOff(s);
      var word, rest := WordOff(t);
      EveryLine(rest);
      var ps, tail :| WellLaid(ps, tail) && Laid(ps, tail) == rest;
      LayFirst(gap, word, ps, tail);
    }
  }

  // The file.

  predicate Fine(r: Result) { r.Skip? || r.Got? }

  /** The entries of the lines that are entries, in order. */
  function Gots(ls: seq<string>, valid: string -> bool): seq<Entry>
  {
    if ls == [] then []
    else
      var (rest, r) := (ls[..|ls| - 1], ParseLine(ls[|ls| - 1], valid));
      Gots(rest, valid) + if r.Got? then [r.e] else []
  }

  /** Line `k` is the first that is neither an entry nor skipped. */
  ghost predicate FirstBad(ls: seq<string>, k: nat, valid: string -> bool)
  {
    && k < |ls| && !Fine(ParseLine(ls[k], valid))
    && forall i :: 0 <= i < k ==> Fine(ParseLine(ls[i], valid))
  }

  lemma {:induction false} GotsFirst(line: string, ls: seq<string>, valid: string -> bool)
    ensures Gots([line] + ls, valid)
         == (if ParseLine(line, valid).Got? then [ParseLine(line, valid).e] else []) + Gots(ls, valid)
  {
    hide ParseLine;
    if ls == [] {
      assert [line] + ls == [line] && [line][..0] == [];
    } else {
      var n := |ls| - 1;
      GotsFirst(line, ls[..n], valid);
      assert ([line] + ls)[..n + 1] == [line] + ls[..n];
    }
  }

  /** A file is read exactly when every line is an entry or skipped, and then it is its entries in order; otherwise the
      first other line decides how it fails. */
  lemma {:induction false} FileMeans(ls: seq<string>, valid: string -> bool)
    ensures var p := ParseLines(ls, valid);
      && (p.Ok? <==> forall i :: 0 <= i < |ls| ==> Fine(ParseLine(ls[i], valid)))
      && (p.Ok? ==> p.entries == Gots(ls, valid))
      && (forall k: nat :: FirstBad(ls, k, valid) ==> p == if ParseLine(ls[k], valid).Bad? then Error else Panic)
  {
    hide ParseLine;
    if ls == [] {
    } else {
      var (line, rest) := (ls[0], ls[1..]);
      FileMeans(rest, valid);
      GotsFirst(line, rest, valid);
      assert ls == [line] + rest;
      assert forall i :: 0 <= i < |rest| ==> rest[i] == ls[i + 1];
      forall k: nat | FirstBad(ls, k, valid)
        ensures ParseLines(ls, valid) == if ParseLine(ls[k], valid).Bad? then Error else Panic
      {
        if k > 0 { BadLater(ls, k, valid); }
      }
      if Fine(ParseLine(line, valid)) { FineFirst(ls, valid); }
    }
  }

  lemma BadLater(ls: seq<string>, k: nat, valid: string -> bool)
    requires FirstBad(ls, k, valid) && k > 0
    ensures FirstBad(ls[1..], k - 1, valid) && Fine(ParseLine(ls[0], valid)) && ls[1..][k - 1] == ls[k]
  {
    hide ParseLine;
    assert forall i :: 0 <= i < k - 1 ==> ls[1..][i] == ls[i + 1];
  }

  lemma FineFirst(ls: seq<string>, valid: string -> bool)
    requires ls != [] && Fine(ParseLine(ls[0], valid))
    ensures (forall i :: 0 <= i < |ls| ==> Fine(ParseLine(ls[i], valid)))
       <==> forall i :: 0 <= i < |ls[1..]| ==> Fine(ParseLine(ls[1..][i], valid))
  {
    hide ParseLine;
    if forall i :: 0 <= i < |ls[1..]| ==> Fine(ParseLine(ls[1..][i], valid)) {
      forall i | 0 <= i < |ls| ensures Fine(ParseLine(ls[i], valid)) {
        if i > 0 { assert ls[1..][i - 1] == ls[i]; }
      }
    }
    assert forall i :: 0 <= i < |ls[1..]| ==> ls[1..][i] == ls[i + 1];
  }

  // Printing.

  /** The line of an entry, letter by letter. */
  lemma LineIs(e: Conf)
    ensures Line(e) == "-t " + e.transport + " -a " + e.traddr + " -s " + PrintInt(e.trsvcid) + " -q " + e.hostnqn
                       + " -n " + e.nqn + " --hostid " + e.hostid
  {
    hide PrintInt;
    var port := PrintInt(e.trsvcid);
    var last := Flagged("--hostid", e.hostid);
    var fifth := Flagged("-n", e.nqn) + " " + last;
    var fourth := Flagged("-q", e.hostnqn) + " " + fifth;
    var third := Flagged("-s", port) + " " + fourth;
    var head := "-t " + e.transport;
    assert Flagged("-t", e.transport) == head by { assert "-t" + " " == "-t "; }
    NextFlag(head, "-a", " -a ", e.traddr, third);
    head := head + " -a " + e.traddr;
    NextFlag(head, "-s", " -s ", port, fourth);
    head := head + " -s " + port;
    NextFlag(head, "-q", " -q ", e.hostnqn, fifth);
    head := head + " -q " + e.hostnqn;
    NextFlag(head, "-n", " -n ", e.nqn, last);
    LastFlag(head + " -n " + e.nqn, "--hostid", " --hostid ", e.hostid);
  }

  lemma NextFlag(head: string, flag: string, spaced: string, value: string, rest: string)
    requires spaced == " " + flag + " "
    ensures head + " " + (Flagged(flag, value) + " " + rest) == head + spaced + value + " " + rest
  {
  }

  lemma LastFlag(head: string, flag: string, spaced: string, value: string)
    requires spaced == " " + flag + " "
    ensures head + " " + Flagged(flag, value) == head + spaced + value
  {
  }

  /** A 16-bit port: digits without sign, by their places. */
  lemma PortIs(s: string)
    ensures if s == [] || exists i :: 0 <= i < |s| && !('0' <= s[i] <= '9') then ParseUint16(s) == None
            else ParseUint16(s) == if PlaceSum(s) < 65536 then Some(PlaceSum(s)) else None
  {
    hide Decimals.Value, PlaceSum;
    if s != [] && forall i :: 0 <= i < |s| ==> '0' <= s[i] <= '9' {
      assert IsNumeral(s);
      ValueIsPlaceSum(s);
    } else {
      assert !IsNumeral(s);
    }
  }

  /** An address of a client: it splits, the host can be resolved, and the port is a 16-bit number. */
  lemma EndpointIs(address: string, split: string -> Option<(string, string)>, valid: string -> bool)
    ensures var (parts, end) := (split(address), Endpoint(address, split, valid));
      && (end.Some? <==>
          && parts.Some? && valid(parts.value.0) && parts.value.1 != []
          && (forall i :: 0 <= i < |parts.value.1| ==> '0' <= parts.value.1[i] <= '9')
          && PlaceSum(parts.value.1) < 65536)
      && (end.Some? ==> end.value == (parts.value.0, PlaceSum(parts.value.1)))
  {
    hide ParseUint16, PlaceSum;
    if split(address).Some? { PortIs(split(address).value.1); }
  }
}
