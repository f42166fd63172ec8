// Lines, white space and fields of a configuration text.

module Text {
  /** Unicode white space. */
  predicate IsSpace(c: char)
  {
    var x := c as int;
    || 0x09 <= x <= 0x0d || x == 0x20 || x == 0x85 || x == 0xa0 || x == 0x1680 || 0x2000 <= x <= 0x200a
    || x == 0x2028 || x == 0x2029 || x == 0x202f || x == 0x205f || x == 0x3000
  }

  predicate IsHash(c: char) { c == '#' }

  predicate IsNewline(c: char) { c == '\n' }

  predicate IsSep(c: char) { IsSpace(c) || c == '=' }

  /** Length of the text before the first character for which `p` holds. */
  function Until(s: string, p: char -> bool): (n: nat)
    ensures n <= |s|
    ensures forall i :: 0 <= i < n ==> !p(s[i])
    ensures n < |s| ==> p(s[n])
  {
    if s == [] || p(s[0]) then 0 else 1 + Until(s[1..], p)
  }

  /** The text up to a comment. */
  function CutHash(s: string): string { s[..Until(s, IsHash)] }

  function TrimLeft(s: string): (r: string)
    ensures |r| <= |s|
  {
    if s != [] && IsSpace(s[0]) then TrimLeft(s[1..]) else s
  }

  function TrimRight(s: string): string
  {
    if s != [] && IsSpace(s[|s| - 1]) then TrimRight(s[..|s| - 1]) else s
  }

  function TrimSpace(s: string): string { TrimRight(TrimLeft(s)) }

  function Lines(text: string): seq<string>
    decreases |text|
  {
    var n := Until(text, IsNewline);
    if text == [] then [] else if n == |text| then [text] else [text[..n]] + Lines(text[n + 1..])
  }

  /** The runs of characters between separators. */
  function Fields(s: string): seq<string>
    decreases |s|
  {
    if s == [] then []
    else if IsSep(s[0]) then Fields(s[1..])
    else
      var n := Until(s, IsSep);
      [s[..n]] + Fields(s[n..])
  }

  predicate Lacks(s: string, p: char -> bool) { forall i :: 0 <= i < |s| ==> !p(s[i]) }

  /** A piece of text that stays one field of one line. */
  predicate IsToken(s: string) { s != [] && Lacks(s, IsSep) && Lacks(s, IsHash) }

  lemma {:induction false} UntilAt(a: string, b: string, p: char -> bool)
    requires Lacks(a, p) && (b == [] || p(b[0]))
    ensures Until(a + b, p) == |a|
  {
    if a == [] {
      assert a + b == b;
    } else {
      assert (a + b)[1..] == a[1..] + b;
      UntilAt(a[1..], b, p);
    }
  }

  lemma {:induction false} FieldsAreTokens(s: string)
    requires Lacks(s, IsHash)
    ensures forall i :: 0 <= i < |Fields(s)| ==> IsToken(Fields(s)[i])
    decreases |s|
  {
    if s == [] {
    } else {
      if IsSep(s[0]) {
        FieldsAreTokens(s[1..]);
      } else {
        var n := Until(s, IsSep);
        FieldsAreTokens(s[n..]);
        assert IsToken(s[..n]);
      }
    }
  }

  function Join(ws: seq<string>): string
  {
    if ws == [] then [] else if |ws| == 1 then ws[0] else ws[0] + " " + Join(ws[1..])
  }

  ghost predicate AreTokens(ws: seq<string>)
  {
    forall i :: 0 <= i < |ws| ==> IsToken(ws[i])
  }

  lemma {:induction false} FieldsOfJoin(ws: seq<string>)
    requires AreTokens(ws)
    ensures Fields(Join(ws)) == ws
  {
    if ws == [] {
    } else {
      assert IsToken(ws[0]);
      FieldsOfJoin(ws[1..]);
      var rest := if |ws| == 1 then [] else " " + Join(ws[1..]);
      assert Join(ws) == ws[0] + rest;
      UntilAt(ws[0], rest, IsSep);
      assert (ws[0] + rest)[|ws[0]|..] == rest;
      if |ws| > 1 { assert rest[1..] == Join(ws[1..]); }
    }
  }

  /** Joined tokens form one line that trimming and comments leave alone. */
  lemma {:induction false} JoinIsOneLine(ws: seq<string>)
    requires AreTokens(ws)
    ensures Lacks(Join(ws), IsNewline) && Lacks(Join(ws), IsHash)
    ensures ws != [] ==> Join(ws) != [] && !IsSpace(Join(ws)[0]) && !IsSpace(Join(ws)[|Join(ws)| - 1])
  {
    if ws == [] {
    } else {
      assert IsToken(ws[0]) && !IsSep(ws[0][0]) && !IsSep(ws[0][|ws[0]| - 1]);
      TokenIsOneLine(ws[0]);
      JoinIsOneLine(ws[1..]);
    }
  }

  lemma TokenIsOneLine(w: string)
    requires IsToken(w)
    ensures Lacks(w, IsNewline)
  {
    assert forall i :: 0 <= i < |w| ==> !IsSep(w[i]);
  }

  lemma CutNothing(s: string)
    requires Lacks(s, IsHash)
    ensures CutHash(s) == s
  {
    UntilAt(s, [], IsHash);
    assert s + [] == s;
  }

  lemma CutLacks(s: string)
    ensures Lacks(CutHash(s), IsHash)
  {
  }

  lemma LinesCons(head: string, rest: string)
    requires Lacks(head, IsNewline)
    ensures Lines(head + "\n" + rest) == [head] + Lines(rest)
  {
    var text := head + "\n" + rest;
    UntilAt(head, "\n" + rest, IsNewline);
    assert text == head + ("\n" + rest);
    assert text[|head| + 1..] == rest && text[..|head|] == head;
  }

  /** Text that ends in a line end is split into lines on its own. */
  lemma {:induction false} LinesAppend(a: string, b: string)
    ensures Lines(a + "\n" + b) == Lines(a + "\n") + Lines(b)
    decreases |a|
  {
    hide Lines;
    var n := Until(a, IsNewline);
    var head := a[..n];
    if n == |a| {
      assert head == a;
      LinesCons(a, b);
      OneLine(a);
    } else {
      var rest := a[n + 1..];
      LinesAppend(rest, b);
      LinesCons(head, rest + "\n");
      LinesCons(head, rest + "\n" + b);
      assert a + "\n" == head + "\n" + (rest + "\n");
      assert a + "\n" + b == head + "\n" + (rest + "\n" + b);
    }
  }

  lemma OneLine(a: string)
    requires Lacks(a, IsNewline)
    ensures Lines(a + "\n") == [a]
  {
    LinesCons(a, []);
    assert a + "\n" + [] == a + "\n";
  }
}
