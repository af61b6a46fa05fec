/** grep (user/grep.c:8-105): the matcher against the language of its pattern,
    and the line loop against arbitrary read sizes. Strings hold no NUL. */
module Grep {
  // ------------------------------------------------------------------- the matcher

  function MatchHere(re: string, text: string): bool
    decreases |re|, |text|, 0
  {
    if re == "" then true
    else if |re| > 1 && re[1] == '*' then MatchStar(re[0], re[2..], text)
    else if re == "$" then text == ""
    else text != "" && (re[0] == '.' || re[0] == text[0]) && MatchHere(re[1..], text[1..])
  }

  function MatchStar(c: char, re: string, text: string): bool
    decreases |re|, |text|, 1
  {
    MatchHere(re, text) || (text != "" && (text[0] == c || c == '.') && MatchStar(c, re, text[1..]))
  }

  function Match(re: string, text: string): bool
  {
    if re != "" && re[0] == '^' then MatchHere(re[1..], text) else MatchAnywhere(re, text)
  }

  function MatchAnywhere(re: string, text: string): bool
    decreases |text|
  {
    MatchHere(re, text) || (text != "" && MatchAnywhere(re, text[1..]))
  }

  // --------------------------------------------------------- what a pattern stands for

  /** A pattern is a sequence of single characters and starred ones. */
  datatype Item = One(c: char) | Star(c: char)

  predicate Accepts(c: char, x: char) { c == '.' || c == x }

  /** The words an item stands for. */
  ghost predicate Word(i: Item, w: string)
  {
    match i
    case One(c) => |w| == 1 && Accepts(c, w[0])
    case Star(c) => forall k :: 0 <= k < |w| ==> Accepts(c, w[k])
  }

  /** w is a word of each item in turn, end to end. */
  ghost predicate Lang(items: seq<Item>, w: string)
  {
    if items == [] then w == ""
    else exists k :: 0 <= k <= |w| && Word(items[0], w[..k]) && Lang(items[1..], w[k..])
  }

  /** The items of a pattern, and whether a final $ ties it to the end of the line. */
  function Items(re: string): seq<Item>
    decreases |re|
  {
    if re == "" || re == "$" then []
    else if |re| > 1 && re[1] == '*' then [Star(re[0])] + Items(re[2..])
    else [One(re[0])] + Items(re[1..])
  }

  function ToEnd(re: string): bool
    decreases |re|
  {
    if re == "" then false
    else if re == "$" then true
    else if |re| > 1 && re[1] == '*' then ToEnd(re[2..])
    else ToEnd(re[1..])
  }

  /** Some prefix of the text, the whole of it for a pattern tied to the end, is in the language. */
  ghost predicate Prefix(items: seq<Item>, toEnd: bool, text: string)
  {
    exists j :: 0 <= j <= |text| && Lang(items, text[..j]) && (toEnd ==> j == |text|)
  }

  lemma OneStep(c: char, rest: seq<Item>, toEnd: bool, text: string)
    ensures Prefix([One(c)] + rest, toEnd, text)
            <==> text != "" && Accepts(c, text[0]) && Prefix(rest, toEnd, text[1..])
  {
    var items := [One(c)] + rest;
    assert items[1..] == rest;
    if Prefix(items, toEnd, text) {
      var j :| 0 <= j <= |text| && Lang(items, text[..j]) && (toEnd ==> j == |text|);
      var k :| 0 <= k <= j && Word(One(c), text[..j][..k]) && Lang(rest, text[..j][k..]);
      assert k == 1 && text[..j][1..] == text[1..][..j - 1];
    }
    if text != "" && Accepts(c, text[0]) && Prefix(rest, toEnd, text[1..]) {
      var j :| 0 <= j <= |text| - 1 && Lang(rest, text[1..][..j]) && (toEnd ==> j == |text| - 1);
      assert text[..j + 1][1..] == text[1..][..j] && Word(One(c), text[..j + 1][..1]);
    }
  }

  lemma StarSkip(c: char, rest: seq<Item>, toEnd: bool, text: string)
    requires Prefix(rest, toEnd, text)
    ensures Prefix([Star(c)] + rest, toEnd, text)
  {
    var items := [Star(c)] + rest;
    assert items[1..] == rest;
    var j :| 0 <= j <= |text| && Lang(rest, text[..j]) && (toEnd ==> j == |text|);
    assert text[..j][0..] == text[..j] && Word(Star(c), text[..j][..0]);
  }

  lemma StarMore(c: char, rest: seq<Item>, toEnd: bool, text: string)
    requires text != "" && Accepts(c, text[0]) && Prefix([Star(c)] + rest, toEnd, text[1..])
    ensures Prefix([Star(c)] + rest, toEnd, text)
  {
    var items := [Star(c)] + rest;
    assert items[1..] == rest;
    var j :| 0 <= j <= |text| - 1 && Lang(items, text[1..][..j]) && (toEnd ==> j == |text| - 1);
    var w := text[1..][..j];
    var k :| 0 <= k <= |w| && Word(Star(c), w[..k]) && Lang(rest, w[k..]);
    var v := text[..j + 1];
    assert v[k + 1..] == w[k..];
    var u := v[..k + 1];
    forall i | 0 <= i < |u|
      ensures Accepts(c, u[i])
    {
      if i > 0 { assert u[i] == w[..k][i - 1]; }
    }
    assert Word(Star(c), u);
  }

  lemma StarCases(c: char, rest: seq<Item>, toEnd: bool, text: string)
    requires Prefix([Star(c)] + rest, toEnd, text) && !Prefix(rest, toEnd, text)
    ensures text != "" && Accepts(c, text[0]) && Prefix([Star(c)] + rest, toEnd, text[1..])
  {
    var items := [Star(c)] + rest;
    assert items[1..] == rest;
    var j :| 0 <= j <= |text| && Lang(items, text[..j]) && (toEnd ==> j == |text|);
    var w := text[..j];
    var k :| 0 <= k <= |w| && Word(Star(c), w[..k]) && Lang(rest, w[k..]);
    assert k > 0 by { assert w[0..] == w; }
    assert w[..k][0] == text[0];
    var v := text[1..][..j - 1];
    assert v == w[1..] && v[k - 1..] == w[k..];
    assert forall i :: 0 <= i < k - 1 ==> v[i] == w[..k][i + 1];
    assert Word(Star(c), v[..k - 1]);
    assert Lang(items, v);
  }

  /** Matching at the start of the text: sound and complete. */
  lemma {:induction false} HereIsPrefix(re: string, text: string)
    ensures MatchHere(re, text) <==> Prefix(Items(re), ToEnd(re), text)
    decreases |re|, |text|, 0
  {
    if re == "" {
      assert Lang([], text[..0]);
    } else if |re| > 1 && re[1] == '*' {
      StarIsPrefix(re[0], re[2..], text);
    } else if re == "$" {
      assert text == "" ==> Lang([], text[..|text|]);
    } else {
      OneStep(re[0], Items(re[1..]), ToEnd(re), text);
      if text != "" { HereIsPrefix(re[1..], text[1..]); }
    }
  }

  lemma {:induction false} StarIsPrefix(c: char, re: string, text: string)
    ensures MatchStar(c, re, text) <==> Prefix([Star(c)] + Items(re), ToEnd(re), text)
    decreases |re|, |text|, 1
  {
    HereIsPrefix(re, text);
    var rest, e := Items(re), ToEnd(re);
    if text != "" { StarIsPrefix(c, re, text[1..]); }
    if Prefix(rest, e, text) {
      StarSkip(c, rest, e, text);
    } else if text != "" && Accepts(c, text[0]) && Prefix([Star(c)] + rest, e, text[1..]) {
      StarMore(c, rest, e, text);
    } else if Prefix([Star(c)] + rest, e, text) {
      StarCases(c, rest, e, text);
    }
  }

  /** The line holds a word of the pattern's language: somewhere, at the start
      for a leading ^, up to the end for a final $. */
  ghost predicate Contains(re: string, text: string)
  {
    var fromStart := re != "" && re[0] == '^';
    var body := if fromStart then re[1..] else re;
    exists i, j :: 0 <= i <= j <= |text| && Lang(Items(body), text[i..j])
      && (fromStart ==> i == 0) && (ToEnd(body) ==> j == |text|)
  }

  lemma {:induction false} AnywhereIsSuffix(re: string, text: string)
    ensures MatchAnywhere(re, text) <==> exists i :: 0 <= i <= |text| && Prefix(Items(re), ToEnd(re), text[i..])
    decreases |text|
  {
    HereIsPrefix(re, text);
    assert text[0..] == text;
    if text != "" {
      AnywhereIsSuffix(re, text[1..]);
      assert forall i :: 0 <= i < |text| ==> text[1..][i..] == text[i + 1..];
      if MatchAnywhere(re, text[1..]) {
        var i :| 0 <= i < |text| && Prefix(Items(re), ToEnd(re), text[1..][i..]);
        assert Prefix(Items(re), ToEnd(re), text[i + 1..]);
      }
      if exists i :: 0 < i <= |text| && Prefix(Items(re), ToEnd(re), text[i..]) {
        var i :| 0 < i <= |text| && Prefix(Items(re), ToEnd(re), text[i..]);
        assert text[1..][i - 1..] == text[i..];
      }
    }
  }

  /** The matcher says yes exactly on lines the pattern describes. */
  lemma MatchIsContains(re: string, text: string)
    ensures Match(re, text) <==> Contains(re, text)
  {
    if re != "" && re[0] == '^' {
      var body := re[1..];
      HereIsPrefix(body, text);
      forall j | 0 <= j <= |text|
        ensures text[0..j] == text[..j]
      {}
    } else {
      AnywhereIsSuffix(re, text);
      SuffixPrefix(re, text);
    }
  }

  lemma SuffixPrefix(re: string, text: string)
    ensures (exists i :: 0 <= i <= |text| && Prefix(Items(re), ToEnd(re), text[i..])) <==>
            (exists i, j :: 0 <= i <= j <= |text| && Lang(Items(re), text[i..j]) && (ToEnd(re) ==> j == |text|))
  {
    if exists i :: 0 <= i <= |text| && Prefix(Items(re), ToEnd(re), text[i..]) {
      var i :| 0 <= i <= |text| && Prefix(Items(re), ToEnd(re), text[i..]);
      var j :| 0 <= j <= |text| - i && Lang(Items(re), text[i..][..j]) && (ToEnd(re) ==> j == |text| - i);
      assert text[i..][..j] == text[i..i + j];
    }
    if exists i, j :: 0 <= i <= j <= |text| && Lang(Items(re), text[i..j]) && (ToEnd(re) ==> j == |text|) {
      var i, j :| 0 <= i <= j <= |text| && Lang(Items(re), text[i..j]) && (ToEnd(re) ==> j == |text|);
      assert text[i..][..j - i] == text[i..j];
    }
  }

  // ------------------------------------------------------------------ lines of a stream

  const BUFSZ: nat := 1024

  /** Lines ended by a newline, without it. */
  function Lines(s: string): seq<string>
  {
    if s == "" then []
    else if s[|s| - 1] == '\n' then Lines(s[..|s| - 1]) + [Rest(s[..|s| - 1])]
    else Lines(s[..|s| - 1])
  }

  /** What follows the last newline. */
  function Rest(s: string): string
  {
    if s == "" || s[|s| - 1] == '\n' then "" else Rest(s[..|s| - 1]) + [s[|s| - 1]]
  }

  function Unlines(ls: seq<string>): string
  {
    if ls == [] then "" else Unlines(ls[..|ls| - 1]) + ls[|ls| - 1] + "\n"
  }

  /** Lines and rest are the stream cut at its newlines: nothing is lost and no piece holds a newline. */
  lemma {:induction false} LinesRoundTrip(s: string)
    ensures Unlines(Lines(s)) + Rest(s) == s
    ensures '\n' !in Rest(s) && forall l :: l in Lines(s) ==> '\n' !in l
  {
    if s != "" {
      var t := s[..|s| - 1];
      LinesRoundTrip(t);
      assert s == t + [s[|s| - 1]];
      if s[|s| - 1] == '\n' { assert Lines(s)[..|Lines(t)|] == Lines(t); }
    }
  }

  /** The matching lines among ls, each with its newline. */
  function Selected(re: string, ls: seq<string>): string
  {
    if ls == [] then ""
    else Selected(re, ls[..|ls| - 1]) + if Match(re, ls[|ls| - 1]) then ls[|ls| - 1] + "\n" else ""
  }

  /** What grep prints for a whole stream; the last line may lack its newline. */
  function Output(re: string, s: string): string
  {
    Selected(re, Lines(s)) + if Rest(s) != "" && Match(re, Rest(s)) then Rest(s) else ""
  }

  lemma OneMore(re: string, s: string, c: char)
    ensures Rest(s + [c]) == if c == '\n' then "" else Rest(s) + [c]
    ensures Selected(re, Lines(s + [c])) ==
              Selected(re, Lines(s)) + if c == '\n' && Match(re, Rest(s)) then Rest(s) + "\n" else ""
  {
    assert (s + [c])[..|s|] == s;
    if c == '\n' { assert (Lines(s) + [Rest(s)])[..|Lines(s)|] == Lines(s); }
  }

  /** The stream `done` has been dealt with; scan what is in the buffer, print
      matching lines and return where the unfinished one starts. */
  method Scan(re: string, buf: array<char>, used: nat, ghost done: string) returns (start: nat, out: string)
    requires used <= buf.Length && Rest(done) == ""
    ensures start <= used && Rest(done + buf[..start]) == "" && buf[start..used] == Rest(done + buf[..used])
    ensures Selected(re, Lines(done + buf[..used])) == Selected(re, Lines(done)) + out
  {
    hide Lines, Rest, Selected, Match;
    out, start := "", 0;
    assert done + buf[..0] == done;
    for i := 0 to used
      invariant start <= i && Rest(done + buf[..start]) == "" && buf[start..i] == Rest(done + buf[..i])
      invariant Selected(re, Lines(done + buf[..i])) == Selected(re, Lines(done)) + out
    {
      OneMore(re, done + buf[..i], buf[i]);
      assert done + buf[..i + 1] == done + buf[..i] + [buf[i]];
      assert buf[start..i + 1] == buf[start..i] + [buf[i]];
      if buf[i] == '\n' {
        if Match(re, buf[start..i]) { out := out + buf[start..i + 1]; }
        start := i + 1;
      }
    }
  }

  /** Room for at least one more byte and a terminator. */
  method Reserve(buf0: array<char>, used: nat) returns (buf: array<char>)
    requires used < buf0.Length
    ensures used + 1 < buf.Length && buf[..used] == buf0[..used] && (buf == buf0 || fresh(buf))
  {
    buf := buf0;
    if used == buf.Length - 1 {
      buf := new char[buf0.Length + BUFSZ];
      for i := 0 to used
        invariant buf[..i] == buf0[..i]
      {
        buf[i] := buf0[i];
      }
    }
  }

  /** read(): some bytes of what is left of the input, at most `room`; `take` is the kernel's choice. */
  method Read(input: string, pos: nat, buf: array<char>, used: nat, room: nat, take: nat) returns (n: nat)
    requires pos <= |input| && used + room <= buf.Length && room > 0
    modifies buf
    ensures n <= room && pos + n <= |input| && (n == 0 <==> pos == |input|)
    ensures buf[..used + n] == old(buf[..used]) + input[pos..pos + n]
  {
    n := 1 + take;
    if n > room { n := room; }
    if n > |input| - pos { n := |input| - pos; }
    ghost var was := buf[..used];
    for i := 0 to n
      invariant buf[..used + i] == was + input[pos..pos + i]
    {
      buf[used + i] := input[pos + i];
    }
  }

  /** grep of one stream, however reads cut it up: the matching lines in order. */
  method Run(re: string, input: string, takes: nat -> nat) returns (out: string)
    ensures out == Output(re, input)
  {
    hide Lines, Rest, Selected, Match;
    var buf := new char[BUFSZ];
    var used: nat, pos: nat, calls: nat := 0, 0, 0;
    ghost var done: string := "";
    out := "";
    Nothing(re);
    while true
      invariant used < buf.Length && pos <= |input| && fresh(buf)
      invariant done + buf[..used] == input[..pos] && Rest(done) == "" && Rest(input[..pos]) == buf[..used]
      invariant out == Selected(re, Lines(input[..pos]))
      decreases |input| - pos
    {
      buf := Reserve(buf, used);
      var n := Read(input, pos, buf, used, buf.Length - used - 1, takes(calls));
      calls := calls + 1;
      if n == 0 { break; }
      assert done + buf[..used + n] == input[..pos] + input[pos..pos + n];
      assert input[..pos] + input[pos..pos + n] == input[..pos + n];
      LinesSoFar(re, done, input[..pos]);
      used, pos := used + n, pos + n;
      var more;
      used, more, done := Digest(re, buf, used, done);
      out := out + more;
    }
    assert input[..pos] == input;
    assert buf[..used] == Rest(input);
    if used > 0 && Match(re, buf[..used]) { out := out + buf[..used]; }
  }

  /** Print the finished lines in the buffer and keep the rest at its front. */
  method Digest(re: string, buf: array<char>, used0: nat, ghost done0: string)
    returns (used: nat, out: string, ghost done: string)
    requires used0 <= buf.Length && Rest(done0) == ""
    modifies buf
    ensures used <= used0 && Rest(done) == "" && done + buf[..used] == done0 + old(buf[..used0])
    ensures buf[..used] == Rest(done0 + old(buf[..used0]))
    ensures Selected(re, Lines(done0 + old(buf[..used0]))) == Selected(re, Lines(done0)) + out
  {
    hide Lines, Rest, Selected, Match;
    var start;
    start, out := Scan(re, buf, used0, done0);
    used, done := used0, done0 + buf[..start];
    assert buf[..used0] == buf[..start] + buf[start..used0];
    if start > 0 {
      used := Shift(buf, start, used);
    }
  }

  lemma Nothing(re: string)
    ensures Rest("") == "" && Lines("") == [] && Selected(re, []) == ""
  {}

  /** Move the unfinished line to the front of the buffer. */
  method Shift(buf: array<char>, start: nat, used0: nat) returns (used: nat)
    requires 0 < start <= used0 <= buf.Length
    modifies buf
    ensures used == used0 - start && buf[..used] == old(buf[start..used0])
  {
    used := used0 - start;
    for i := 0 to used
      invariant buf[..i] == old(buf[start..start + i])
      invariant forall j :: i <= j < buf.Length ==> buf[j] == old(buf[j])
    {
      buf[i] := buf[start + i];
    }
  }

  /** An unfinished line adds no output. */
  lemma LinesSoFar(re: string, done: string, s: string)
    requires done <= s && Rest(done) == "" && Rest(s) == s[|done|..]
    ensures Selected(re, Lines(s)) == Selected(re, Lines(done))
  {
    LinesRoundTrip(s);
    SameLines(done, s[|done|..]);
    assert done + s[|done|..] == s;
  }

  lemma {:induction false} SameLines(done: string, tail: string)
    requires '\n' !in tail
    ensures Lines(done + tail) == Lines(done)
  {
    if tail == "" {
      assert done + tail == done;
    } else {
      var t := tail[..|tail| - 1];
      assert (done + tail)[..|done + tail| - 1] == done + t;
      assert tail[|tail| - 1] in tail;
      SameLines(done, t);
    }
  }
}
