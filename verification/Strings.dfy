/** The string operations the line-oriented formats are written with: trimming, splitting, lines. */
module Strings {
  import opened Wrappers

  /** Unicode White_Space. */
  predicate IsSpace(c: char) {
    var n := c as int;
    || 9 <= n <= 13 || n == 0x20 || n == 0x85 || n == 0xA0 || n == 0x1680 || 0x2000 <= n <= 0x200A
    || n == 0x2028 || n == 0x2029 || n == 0x202F || n == 0x205F || n == 0x3000
  }

  predicate NoSpace(s: string) {
    forall i | 0 <= i < |s| :: !IsSpace(s[i])
  }

  predicate SpaceFreeEnd(s: string) {
    s == "" || !IsSpace(s[|s| - 1])
  }

  /** Neither the first nor the last character is whitespace. */
  predicate NoOuterSpace(s: string) {
    (s == "" || !IsSpace(s[0])) && SpaceFreeEnd(s)
  }

  predicate SingleLine(s: string) {
    '\n' !in s
  }

  predicate EndsInCr(s: string) {
    s != "" && s[|s| - 1] == '\r'
  }

  // ---------------------------------------------------------------------------------------------
  // Trimming
  // ---------------------------------------------------------------------------------------------

  function TrimStart(s: string): (r: string)
    ensures r == "" || !IsSpace(r[0])
    ensures |r| <= |s| && r == s[|s| - |r|..]
  {
    if s != "" && IsSpace(s[0]) then
      var r := TrimStart(s[1..]);
      assert s[1..][|s| - 1 - |r|..] == s[|s| - |r|..];
      r
    else s
  }

  function TrimEnd(s: string): (r: string)
    ensures SpaceFreeEnd(r)
    ensures |r| <= |s| && r == s[..|r|]
  {
    if s != "" && IsSpace(s[|s| - 1]) then
      var r := TrimEnd(s[..|s| - 1]);
      assert s[..|s| - 1][..|r|] == s[..|r|];
      r
    else s
  }

  function Trim(s: string): (r: string)
    ensures NoOuterSpace(r)
  {
    var front := TrimStart(s);
    var r := TrimEnd(front);
    assert r != "" ==> r[0] == front[0];
    r
  }

  function StripPrefix(s: string, prefix: string): Option<string> {
    if prefix <= s then Some(s[|prefix|..]) else None
  }

  function StripCr(s: string): string {
    if EndsInCr(s) then s[..|s| - 1] else s
  }

  // ---------------------------------------------------------------------------------------------
  // Splitting at whitespace
  // ---------------------------------------------------------------------------------------------

  /** The position of the first whitespace, or the length. */
  function FirstSpace(s: string): (i: nat)
    ensures i <= |s| && NoSpace(s[..i])
    ensures i < |s| ==> IsSpace(s[i])
  {
    if s == "" || IsSpace(s[0]) then 0
    else
      var rest := FirstSpace(s[1..]);
      assert s[..rest + 1] == [s[0]] + s[1..][..rest];
      rest + 1
  }

  /** Split around the first whitespace character. */
  function SplitAtSpace(s: string): Option<(string, string)> {
    var i := FirstSpace(s);
    if i == |s| then None else Some((s[..i], s[i + 1..]))
  }

  lemma {:induction false} FirstSpaceIs(s: string, k: nat)
    requires k <= |s| && NoSpace(s[..k]) && (k < |s| ==> IsSpace(s[k]))
    ensures FirstSpace(s) == k
  {
    if k > 0 {
      assert s[0] == s[..k][0];
      assert s[1..][..k - 1] == s[..k][1..];
      FirstSpaceIs(s[1..], k - 1);
    }
  }

  lemma {:induction false} SplitAtFirstSpace(head: string, tail: string)
    requires NoSpace(head)
    ensures SplitAtSpace(head + " " + tail) == Some((head, tail))
  {
    var s := head + " " + tail;
    assert s[..|head|] == head && s[|head| + 1..] == tail;
    FirstSpaceIs(s, |head|);
  }

  // ---------------------------------------------------------------------------------------------
  // Lines
  // ---------------------------------------------------------------------------------------------

  /** The position of the first newline, or the length. */
  function FirstNewline(s: string): (i: nat)
    ensures i <= |s| && SingleLine(s[..i])
    ensures i < |s| ==> s[i] == '\n'
    ensures i == |s| ==> SingleLine(s)
  {
    if s == "" || s[0] == '\n' then 0
    else
      var rest := FirstNewline(s[1..]);
      assert s[..rest + 1] == [s[0]] + s[1..][..rest];
      assert rest + 1 == |s| ==> s == s[..rest + 1];
      rest + 1
  }

  /** The lines of a text: split after each newline, which takes a carriage return before it along. */
  function Lines(text: string): (lines: seq<string>)
    ensures forall i | 0 <= i < |lines| :: SingleLine(lines[i])
    ensures '\r' !in text ==> forall i | 0 <= i < |lines| :: '\r' !in lines[i]
  {
    if text == "" then []
    else
      var i := FirstNewline(text);
      if i == |text| then [text]
      else
        var line := StripCr(text[..i]);
        assert forall c | c in line :: c in text[..i];
        [line] + Lines(text[i + 1..])
  }

  /** Each piece on a line of its own. */
  function Unlines(pieces: seq<string>): string {
    if pieces == [] then "" else pieces[0] + "\n" + Unlines(pieces[1..])
  }

  /** Split at every newline; the piece after a final newline is empty. */
  function SplitNewlines(s: string): (pieces: seq<string>)
    ensures pieces != []
    ensures forall i | 0 <= i < |pieces| :: SingleLine(pieces[i])
  {
    var i := FirstNewline(s);
    if i == |s| then [s] else [s[..i]] + SplitNewlines(s[i + 1..])
  }

  function JoinNewlines(pieces: seq<string>): string {
    if pieces == [] then ""
    else if |pieces| == 1 then pieces[0]
    else pieces[0] + "\n" + JoinNewlines(pieces[1..])
  }

  lemma {:induction false} JoinCons(first: string, rest: seq<string>)
    requires rest != []
    ensures JoinNewlines([first] + rest) == first + ("\n" + JoinNewlines(rest)) && JoinNewlines([first]) == first
  {
    assert ([first] + rest)[1..] == rest;
  }

  lemma {:induction false} JoinSplit(s: string)
    ensures JoinNewlines(SplitNewlines(s)) == s
  {
    hide FirstNewline, JoinNewlines;
    var i := FirstNewline(s);
    if i < |s| {
      var rest := SplitNewlines(s[i + 1..]);
      JoinSplit(s[i + 1..]);
      JoinCons(s[..i], rest);
      assert s[i..] == "\n" + s[i + 1..];
      assert s == s[..i] + s[i..];
    } else {
      JoinCons(s, [""]);
    }
  }

  function StripCrs(pieces: seq<string>): (stripped: seq<string>)
    ensures |stripped| == |pieces|
    ensures forall i | 0 <= i < |pieces| :: stripped[i] == StripCr(pieces[i])
  {
    seq(|pieces|, i requires 0 <= i < |pieces| => StripCr(pieces[i]))
  }

  lemma {:induction false} FirstNewlineIs(s: string, k: nat)
    requires k < |s| && SingleLine(s[..k]) && s[k] == '\n'
    ensures FirstNewline(s) == k
  {
    if k > 0 {
      assert s[0] == s[..k][0];
      assert s[1..][..k - 1] == s[..k][1..];
      FirstNewlineIs(s[1..], k - 1);
    }
  }

  /** Reading back pieces written one to a line: each loses a carriage return it ended in. */
  lemma {:induction false} LinesOfUnlines(pieces: seq<string>)
    requires forall i | 0 <= i < |pieces| :: SingleLine(pieces[i])
    ensures Lines(Unlines(pieces)) == StripCrs(pieces)
  {
    hide FirstNewline, StripCr;
    if pieces != [] {
      var text, rest := Unlines(pieces), Unlines(pieces[1..]);
      assert text[..|pieces[0]|] == pieces[0] && text[|pieces[0]| + 1..] == rest;
      assert StripCrs(pieces) == [StripCr(pieces[0])] + StripCrs(pieces[1..]);
      FirstNewlineIs(text, |pieces[0]|);
      LinesOfUnlines(pieces[1..]);
    }
  }

  lemma {:induction false} UnlinesConcat(a: seq<string>, b: seq<string>)
    ensures Unlines(a + b) == Unlines(a) + Unlines(b)
  {
    if a == [] {
      assert a + b == b;
    } else {
      assert (a + b)[1..] == a[1..] + b;
      UnlinesConcat(a[1..], b);
    }
  }

  /** Stripping keeps a text joined from lines the same exactly when no line ends in a carriage return. */
  lemma {:induction false} StripCrsJoin(pieces: seq<string>)
    ensures |JoinNewlines(StripCrs(pieces))| <= |JoinNewlines(pieces)|
    ensures JoinNewlines(StripCrs(pieces)) == JoinNewlines(pieces)
       <==> forall i | 0 <= i < |pieces| :: !EndsInCr(pieces[i])
  {
    if |pieces| > 1 {
      var rest := pieces[1..];
      StripCrsJoin(rest);
      var stripped := StripCrs(pieces);
      assert stripped[1..] == StripCrs(rest);
      var a, b := JoinNewlines(stripped), JoinNewlines(pieces);
      if forall i | 0 <= i < |pieces| :: !EndsInCr(pieces[i]) {
        assert forall i | 0 <= i < |rest| :: rest[i] == pieces[i + 1];
      }
      if a == b {
        assert |stripped[0]| == |pieces[0]|;
        assert a[|pieces[0]| + 1..] == JoinNewlines(StripCrs(rest)) && b[|pieces[0]| + 1..] == JoinNewlines(rest);
        forall i | 0 <= i < |pieces| ensures !EndsInCr(pieces[i]) {
          if i > 0 {
            assert pieces[i] == rest[i - 1];
          }
        }
      }
    }
  }

  // ---------------------------------------------------------------------------------------------
  // A keyword and the rest of its line
  // ---------------------------------------------------------------------------------------------

  /** A line's leading word and, front-trimmed, whatever follows it. */
  function KeywordAndRest(line: string): (string, string) {
    match SplitAtSpace(line)
    case None => (line, "")
    case Some((head, tail)) => (head, TrimStart(tail))
  }

  lemma {:induction false} TrimNoOuter(s: string)
    requires NoOuterSpace(s)
    ensures Trim(s) == s && TrimStart(s) == s && TrimEnd(s) == s
  {
  }

  /** A line made of a keyword, a space and a rest without outer whitespace reads back as both. */
  lemma {:induction false} KeywordLine(keyword: string, rest: string)
    requires keyword != "" && NoSpace(keyword) && NoOuterSpace(rest)
    ensures Trim(keyword + " " + rest) != ""
    ensures KeywordAndRest(Trim(keyword + " " + rest)) == (keyword, rest)
  {
    var s := keyword + " " + rest;
    assert !IsSpace(s[0]);
    if rest == "" {
      assert s[..|s| - 1] == keyword;
      assert TrimEnd(keyword) == keyword;
      assert TrimEnd(s) == keyword;
      assert FirstSpace(keyword) == |keyword|;
    } else {
      assert s[|s| - 1] == rest[|rest| - 1];
      TrimNoOuter(s);
      SplitAtFirstSpace(keyword, rest);
      TrimNoOuter(rest);
    }
  }
}
