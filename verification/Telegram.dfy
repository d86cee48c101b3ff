/** What the bot shows of a result: at most 512 bytes and, in a group, 10 lines, without control
    characters, escaped, between `pre` tags, and marked when something is missing.
 */
module Telegram {
  import opened Options
  import opened Protocol
  import opened Utf8

  const MAX_BYTES: nat := 512
  const MAX_LINES: nat := 10
  const TRUNCATED := "... (truncated)"

  // ----- Replacing -----

  /** Every occurrence of a character replaced. */
  function Replace(s: string, c: char, text: string): string {
    if s == "" then "" else (if s[0] == c then text else [s[0]]) + Replace(s[1..], c, text)
  }

  predicate IsControl(c: char) {
    c < ' ' || '\U{7F}' <= c < '\U{A0}'
  }

  predicate IsShown(c: char) {
    !(c == REPLACEMENT || (IsControl(c) && c != '\n' && c != '\t'))
  }

  /** Every character that is not shown, dropped. */
  function Shown(s: string): string {
    if s == "" then "" else (if IsShown(s[0]) then [s[0]] else "") + Shown(s[1..])
  }

  // ----- Lines -----

  function FindNewline(s: string): (i: nat)
    ensures i <= |s| && (i < |s| ==> s[i] == '\n') && '\n' !in s[..i]
  {
    if s == "" || s[0] == '\n' then 0
    else
      var i := 1 + FindNewline(s[1..]);
      assert s[..i] == [s[0]] + s[1..][..i - 1];
      i
  }

  /** A carriage return before the line feed belongs to the line's end. */
  function WithoutReturn(s: string): string {
    if s != "" && s[|s| - 1] == '\r' then s[..|s| - 1] else s
  }

  /** The lines; a line feed at the very end begins no further line. */
  function Lines(s: string): seq<string> {
    var i := FindNewline(s);
    if s == "" then []
    else if i == |s| then [s]
    else [WithoutReturn(s[..i])] + Lines(s[i + 1..])
  }

  function Join(lines: seq<string>): string {
    if lines == [] then "" else if |lines| == 1 then lines[0] else lines[0] + "\n" + Join(lines[1..])
  }

  function Take<T>(s: seq<T>, n: nat): seq<T> {
    if |s| < n then s else s[..n]
  }

  // ----- The result -----

  /** What is left after both cuts. */
  function Cut(s: string, group: bool): string {
    var t := Lossy(Take(EncodeText(s), MAX_BYTES));
    if group then Join(Take(Lines(t), MAX_LINES)) else t
  }

  /** The characters a character is shown as. */
  function Entity(c: char): string {
    if c == '&' then "&amp;"
    else if c == '<' then "&lt;"
    else if c == '>' then "&gt;"
    else if c == '\"' then "&quot;"
    else [c]
  }

  function Escape(s: string): string {
    if s == "" then "" else Entity(s[0]) + Escape(s[1..])
  }

  predicate IsMarked(s: string, group: bool) {
    |EncodeText(Cut(s, group))| + 1 < |EncodeText(s)|
  }

  /** The message, by one substitution of characters. */
  function Message(s: string, group: bool): string {
    if s == "" then "no output"
    else "<pre>" + Escape(Shown(Cut(s, group))) + "</pre>" + if IsMarked(s, group) then TRUNCATED else ""
  }

  /** The message as it is put together: cut, filtered and replaced once for each special character. */
  method WrapResult(s: string, group: bool) returns (r: string)
    ensures r == Message(s, group)
    ensures if s == "" then r == "no output" else IsMessageOf(r, s, group)
    ensures IsShort(s, group) ==> ComesBack(r, s)
  {
    if s == "" { return "no output"; }
    r := "<pre>";
    var input := EncodeText(s);
    var cutInput := Lossy(input[..if MAX_BYTES < |input| then MAX_BYTES else |input|]);
    if group { cutInput := Join(Take(Lines(cutInput), MAX_LINES)); }
    FourReplacements(Shown(cutInput));
    r := r + Replace(Replace(Replace(Replace(Shown(cutInput),
        '&', "&amp;"), '<', "&lt;"), '>', "&gt;"), '\"', "&quot;");
    r := r + "</pre>";
    assert input[..|input|] == input;
    if |EncodeText(cutInput)| + 1 < |input| { r := r + TRUNCATED; }
    var _, _, _ := MessageSays(s, group);
    if IsShort(s, group) { var _ := ShortTextComesBack(s, group); }
  }

  // ----- Escaping -----

  lemma {:induction false} ReplaceSplits(s: string, t: string, c: char, text: string)
    ensures Replace(s + t, c, text) == Replace(s, c, text) + Replace(t, c, text)
  {
    if s == "" {
      assert s + t == t;
    } else {
      assert (s + t)[1..] == s[1..] + t;
      ReplaceSplits(s[1..], t, c, text);
    }
  }

  lemma {:induction false} ReplaceAbsent(s: string, c: char, text: string)
    requires c !in s
    ensures Replace(s, c, text) == s
  {
    if s != "" { ReplaceAbsent(s[1..], c, text); }
  }

  /** Only the ampersand occurs in an entity, so replacing it first is what makes one pass of four. */
  lemma {:induction false} FourReplacements(s: string)
    ensures Replace(Replace(Replace(Replace(s, '&', "&amp;"), '<', "&lt;"), '>', "&gt;"), '\"', "&quot;") == Escape(s)
  {
    if s != "" {
      var a := if s[0] == '&' then "&amp;" else [s[0]];
      var b := Replace(a, '<', "&lt;");
      var c := Replace(b, '>', "&gt;");
      var a', b', c' := Replace(s[1..], '&', "&amp;"), Replace(Replace(s[1..], '&', "&amp;"), '<', "&lt;"),
                        Replace(Replace(Replace(s[1..], '&', "&amp;"), '<', "&lt;"), '>', "&gt;");
      ReplaceSplits(a, a', '<', "&lt;");
      ReplaceSplits(b, b', '>', "&gt;");
      ReplaceSplits(c, c', '\"', "&quot;");
      FourOnOne(s[0]);
      FourReplacements(s[1..]);
    }
  }

  lemma FourOnOne(x: char)
    ensures var a := if x == '&' then "&amp;" else [x];
            Replace(Replace(Replace(a, '<', "&lt;"), '>', "&gt;"), '\"', "&quot;") == Entity(x)
  {
    hide Replace;
    if x == '<' { ReplaceOne(x, "&lt;"); } else { ReplaceAbsent(if x == '&' then "&amp;" else [x], '<', "&lt;"); }
    var y := if x == '&' then "&amp;" else if x == '<' then "&lt;" else [x];
    if x == '>' { ReplaceOne(x, "&gt;"); } else { ReplaceAbsent(y, '>', "&gt;"); }
    if x == '\"' { ReplaceOne(x, "&quot;"); } else { ReplaceAbsent(Entity(x), '\"', "&quot;"); }
  }

  lemma ReplaceOne(c: char, text: string)
    ensures Replace([c], c, text) == text
  {
    assert [c][1..] == "";
  }

  /** The entity a text starts with, and the character it stands for. */
  function StartingEntity(t: string): Option<(nat, char)> {
    if "&amp;" <= t then Some((5, '&'))
    else if "&lt;" <= t then Some((4, '<'))
    else if "&gt;" <= t then Some((4, '>'))
    else if "&quot;" <= t then Some((6, '\"'))
    else None
  }

  /** Reading entities back; other text stands for itself. */
  function Unescape(t: string): string {
    if t == "" then ""
    else
      match StartingEntity(t)
      case Some((n, c)) => [c] + Unescape(t[n..])
      case None => [t[0]] + Unescape(t[1..])
  }

  lemma StartsWithEntity(c: char, more: string)
    ensures if Entity(c) == [c] then StartingEntity(Entity(c) + more) == None
            else StartingEntity(Entity(c) + more) == Some((|Entity(c)|, c))
  {
    var t := Entity(c) + more;
    assert t[0] == Entity(c)[0];
    if c == '&' || c == '<' || c == '>' || c == '\"' {
      assert t[1] == Entity(c)[1] && t[2] == Entity(c)[2];
      assert Entity(c) <= t;
    }
  }

  lemma {:induction false} UnescapeInverts(s: string)
    ensures Unescape(Escape(s)) == s
  {
    if s != "" {
      var more := Escape(s[1..]);
      StartsWithEntity(s[0], more);
      assert (Entity(s[0]) + more)[|Entity(s[0])|..] == more;
      UnescapeInverts(s[1..]);
    }
  }

  /** Where an ampersand stands an entity starts, and the other special characters do not stand at all. */
  predicate IsSafe(t: string) {
    forall i | 0 <= i < |t| ::
      t[i] != '<' && t[i] != '>' && t[i] != '\"' && (t[i] == '&' ==> StartingEntity(t[i..]).Some?)
  }

  lemma {:induction false} EscapeIsSafe(s: string)
    ensures IsSafe(Escape(s))
  {
    hide StartingEntity;
    if s != "" {
      var e, more := Entity(s[0]), Escape(s[1..]);
      var t := e + more;
      EscapeIsSafe(s[1..]);
      StartsWithEntity(s[0], more);
      forall i | 0 <= i < |t|
        ensures t[i] != '<' && t[i] != '>' && t[i] != '\"' && (t[i] == '&' ==> StartingEntity(t[i..]).Some?)
      {
        if i >= |e| { assert t[i..] == more[i - |e|..]; } else if i == 0 { assert t[0..] == t; }
      }
    }
  }

  // ----- What is cut -----

  /** The characters of the input that fit. */
  function Fitting(s: string): string {
    WholePrefix(s, 512)
  }

  /** Whether the byte cut falls inside a character, of which then one replacement is left. */
  predicate IsSplit(s: string) {
    |EncodeText(Fitting(s))| < 512 < |EncodeText(s)|
  }

  lemma ByteCut(s: string)
    ensures Cut(s, false) == Fitting(s) + if IsSplit(s) then [REPLACEMENT] else ""
    ensures Fitting(s) <= s && |EncodeText(Fitting(s))| <= MAX_BYTES
    ensures MAX_BYTES <= |EncodeText(s)| ==> MAX_BYTES < |EncodeText(Fitting(s))| + 4
    ensures |EncodeText(s)| <= MAX_BYTES ==> Fitting(s) == s
  {
    hide EncodeText, Lossy, WholePrefix;
    var b := EncodeText(s);
    WholePrefixFits(s, MAX_BYTES);
    if |b| <= MAX_BYTES {
      WholePrefixIsLongest(s, MAX_BYTES, s);
      TextRoundTrip(s, []);
      LossyNothing();
      assert b + [] == b && Take(b, MAX_BYTES) == b && s + "" == s;
      assert Fitting(s) == s;
    } else {
      assert Take(b, MAX_BYTES) == b[..MAX_BYTES];
      CutText(s, MAX_BYTES);
    }
  }

  lemma {:induction false} ShownSplits(s: string, t: string)
    ensures Shown(s + t) == Shown(s) + Shown(t)
  {
    hide IsShown, Shown;
    if s == "" {
      NothingShown();
      assert s + t == t && "" + Shown(t) == Shown(t);
    } else {
      assert (s + t)[1..] == s[1..] + t && (s + t)[0] == s[0];
      ShownSplits(s[1..], t);
      ShownFirst(s);
      ShownFirst(s + t);
    }
  }

  lemma ShownFirst(s: string)
    requires s != ""
    ensures Shown(s) == (if IsShown(s[0]) then [s[0]] else "") + Shown(s[1..])
  {
    hide IsShown;
  }

  /** Cutting bytes, decoding and filtering is filtering the longest whole-character prefix. */
  lemma ShowsFitting(s: string)
    ensures Shown(Cut(s, false)) == Shown(Fitting(s))
  {
    ByteCut(s);
    ShownSplits(Fitting(s), [REPLACEMENT]);
    assert Shown([REPLACEMENT]) == "";
    assert Fitting(s) + "" == Fitting(s);
  }

  function Newlines(s: string): nat {
    if s == "" then 0 else (if s[0] == '\n' then 1 else 0) + Newlines(s[1..])
  }

  lemma {:induction false} NewlinesSplit(s: string, t: string)
    ensures Newlines(s + t) == Newlines(s) + Newlines(t)
  {
    if s == "" {
      assert s + t == t;
    } else {
      assert (s + t)[1..] == s[1..] + t;
      NewlinesSplit(s[1..], t);
    }
  }

  lemma {:induction false} NoNewlines(s: string)
    requires '\n' !in s
    ensures Newlines(s) == 0
  {
    if s != "" { NoNewlines(s[1..]); }
  }

  predicate EndsLine(s: string) {
    s != "" && s[|s| - 1] == '\n'
  }

  /** `u` is `t` without a line feed at its very end, or cut at the end of line `m`. */
  predicate IsLineCut(u: string, t: string, m: nat) {
    && u <= t && Newlines(u) < m
    && if u == t then !EndsLine(t) else t[|u|] == '\n' && (Newlines(u) == m - 1 || |u| + 1 == |t|)
  }

  /** Without the carriage returns that belong to a line's end. */
  function Unreturned(s: string): string {
    if s == "" then ""
    else (if s[0] == '\r' && |s| > 1 && s[1] == '\n' then "" else [s[0]]) + Unreturned(s[1..])
  }

  /** How many there are. */
  function Returns(s: string): nat {
    if s == "" then 0 else (if s[0] == '\r' && |s| > 1 && s[1] == '\n' then 1 else 0) + Returns(s[1..])
  }

  lemma {:induction false} UnreturnedLine(first: string, rest: string)
    requires '\n' !in first
    ensures Unreturned(first + "\n" + rest) == WithoutReturn(first) + "\n" + Unreturned(rest)
  {
    hide Unreturned;
    if first == "" {
      assert WithoutReturn(first) + "\n" == ['\n'] && first + "\n" + rest == ['\n'] + rest;
      UnreturnedFirst('\n', rest);
    } else {
      var more := first[1..] + "\n" + rest;
      assert first + "\n" + rest == [first[0]] + more;
      UnreturnedFirst(first[0], more);
      UnreturnedLine(first[1..], rest);
      if |first| == 1 {
        assert first == [first[0]] && first[1..] == "" && more == "\n" + rest;
        assert WithoutReturn("") + "\n" + Unreturned(rest) == "\n" + Unreturned(rest);
        assert "" + "\n" + Unreturned(rest) == "\n" + Unreturned(rest);
      } else {
        assert more[0] == first[1] && WithoutReturn(first) == [first[0]] + WithoutReturn(first[1..]);
      }
    }
  }

  lemma UnreturnedFirst(c: char, s: string)
    ensures Unreturned([c] + s) == if c == '\r' && s != "" && s[0] == '\n' then Unreturned(s) else [c] + Unreturned(s)
  {
    assert ([c] + s)[1..] == s && "" + Unreturned(s) == Unreturned(s);
  }

  lemma {:induction false} UnreturnedWithout(s: string)
    requires '\n' !in s || '\r' !in s
    ensures Unreturned(s) == s
  {
    if s != "" { UnreturnedWithout(s[1..]); }
  }

  lemma {:induction false} UnreturnedBytes(s: string)
    ensures |EncodeText(Unreturned(s))| + Returns(s) == |EncodeText(s)|
  {
    hide EncodeText;
    if s == "" {
      assert Unreturned(s) == s;
    } else {
      UnreturnedBytes(s[1..]);
      EncodeSplits([s[0]], Unreturned(s[1..]));
      EncodeSplits([s[0]], s[1..]);
      OneByte(s[0]);
      assert [s[0]] + s[1..] == s;
      assert "" + Unreturned(s[1..]) == Unreturned(s[1..]);
    }
  }

  lemma {:induction false} UnreturnedEnds(s: string)
    ensures Newlines(Unreturned(s)) == Newlines(s)
    ensures (Unreturned(s) == "" <==> s == "") && (s != "" ==> Unreturned(s)[|Unreturned(s)| - 1] == s[|s| - 1])
  {
    hide Newlines;
    if s != "" {
      var more := Unreturned(s[1..]);
      UnreturnedEnds(s[1..]);
      FirstNewline(s[0], s[1..]);
      FirstNewline(s[0], more);
      assert [s[0]] + s[1..] == s && "" + more == more;
    } else {
      assert Unreturned(s) == s;
    }
  }

  lemma FirstNewline(c: char, s: string)
    ensures Newlines([c] + s) == (if c == '\n' then 1 else 0) + Newlines(s)
  {
    assert ([c] + s)[1..] == s;
  }

  lemma {:induction false} UnreturnedNone(s: string)
    requires Returns(s) == 0
    ensures Unreturned(s) == s
  {
    if s != "" { UnreturnedNone(s[1..]); }
  }

  lemma OneByte(c: char)
    ensures c == '\r' || c == '\n' ==> |EncodeText([c])| == 1
  {
    assert [c][1..] == "";
  }

  lemma {:induction false} UnreturnedAppend(s: string, c: char)
    requires c != '\n'
    ensures Unreturned(s + [c]) == Unreturned(s) + [c] && Returns(s + [c]) == Returns(s)
  {
    if s == "" {
      assert s + [c] == [c];
    } else {
      assert (s + [c])[1..] == s[1..] + [c];
      UnreturnedAppend(s[1..], c);
    }
  }

  /** Splitting into lines, keeping `m` and joining them again. */
  function Capped(t: string, m: nat): string {
    Join(Take(Lines(t), m))
  }

  /** What that amounts to: lines end in line feeds alone, and the text is cut. */
  lemma {:induction false} LineCut(t: string, m: nat)
    requires m > 0
    ensures IsLineCut(Capped(t, m), Unreturned(t), m)
  {
    hide Capped, IsLineCut, Unreturned;
    var i := FindNewline(t);
    var first := t[..i];
    if i == |t| {
      assert first == t;
      OneLine(t, m);
      UnreturnedWithout(t);
    } else {
      var rest := t[i + 1..];
      assert t == first + "\n" + rest;
      UnreturnedLine(first, rest);
      FirstLine(t, m, i);
      var line := WithoutReturn(first);
      assert '\n' !in line;
      if m > 1 && rest != "" {
        LineCut(rest, m - 1);
        UnreturnedEnds(rest);
        Longer(line, Capped(rest, m - 1), Unreturned(rest), m);
      } else {
        UnreturnedEnds(rest);
        OnlyLine(line, Unreturned(rest), m);
      }
    }
  }

  lemma OneLine(t: string, m: nat)
    requires m > 0 && '\n' !in t
    ensures Capped(t, m) == t && IsLineCut(t, t, m)
  {
    NoNewlines(t);
    assert FindNewline(t) == |t|;
    assert t == "" || Take(Lines(t), m) == [t];
  }

  lemma Longer(first: string, u: string, rest: string, m: nat)
    requires m > 1 && '\n' !in first && rest != "" && IsLineCut(u, rest, m - 1)
    ensures IsLineCut(first + ("\n" + u), first + "\n" + rest, m)
  {
    NoNewlines(first);
    NewlinesSplit(first, "\n" + u);
    NewlinesSplit("\n", u);
    assert Newlines("\n") == 1;
    var v, t := first + ("\n" + u), first + "\n" + rest;
    assert rest == u + rest[|u|..];
    assert t == v + rest[|u|..];
  }

  lemma OnlyLine(first: string, rest: string, m: nat)
    requires m > 0 && '\n' !in first && (m == 1 || rest == "")
    ensures IsLineCut(first + "", first + "\n" + rest, m)
  {
    NoNewlines(first);
    assert first + "" == first;
  }

  lemma FirstLine(t: string, m: nat, i: nat)
    requires m > 0 && i == FindNewline(t) && i < |t|
    ensures Capped(t, m) == WithoutReturn(t[..i]) +
        if m > 1 && t[i + 1..] != "" then "\n" + Capped(t[i + 1..], m - 1) else ""
  {
    var first, rest := WithoutReturn(t[..i]), Lines(t[i + 1..]);
    assert Lines(t) == [first] + rest;
    assert rest == [] <==> t[i + 1..] == "";
    hide Lines, FindNewline, WithoutReturn;
    JoinFirst(first, rest, m);
  }

  lemma JoinFirst(first: string, rest: seq<string>, m: nat)
    requires m > 0
    ensures Join(Take([first] + rest, m)) == first + if m > 1 && rest != [] then "\n" + Join(Take(rest, m - 1)) else ""
  {
    var lines := [first] + Take(rest, m - 1);
    assert Take([first] + rest, m) == lines;
    assert lines[1..] == Take(rest, m - 1);
    if |lines| > 1 { assert Join(lines) == first + "\n" + Join(lines[1..]); }
  }

  /** In a group the text left by the byte cut is cut once more, at the end of its tenth line. */
  lemma GroupCut(s: string)
    ensures IsLineCut(Cut(s, true), Unreturned(Cut(s, false)), 10)
  {
    LineCut(Cut(s, false), MAX_LINES);
    assert Cut(s, true) == Capped(Cut(s, false), MAX_LINES);
  }

  /** Whether there are at most `m` lines. */
  predicate FewLines(t: string, m: nat) {
    Newlines(t) + (if EndsLine(t) then 0 else 1) <= m
  }

  /** The bytes that go with line ends: returns, and a line feed at the very end. */
  function EndBytes(t: string): nat {
    Returns(t) + if EndsLine(t) then 1 else 0
  }

  /** Few lines lose just these bytes; more lose at least a line feed and the last character. */
  lemma CappedBytes(t: string, m: nat)
    requires m > 0
    ensures FewLines(t, m) ==> |EncodeText(Capped(t, m))| + EndBytes(t) == |EncodeText(t)|
    ensures FewLines(t, m) && !EndsLine(t) ==> Capped(t, m) == Unreturned(t)
    ensures !FewLines(t, m) ==>
              t != "" && |EncodeText(Capped(t, m))| + 1 + |EncodeText([t[|t| - 1]])| <= |EncodeText(t)|
  {
    hide EncodeText, Capped, Unreturned, Newlines, Returns;
    LineCut(t, m);
    UnreturnedBytes(t);
    UnreturnedEnds(t);
    var u, v := Capped(t, m), Unreturned(t);
    if u == v {
      assert Newlines(v) < m;
    } else {
      var rest := v[|u| + 1..];
      assert v == u + "\n" + rest;
      CutBytes(u, rest);
      if rest == "" {
        assert u + "\n" + "" == u + "\n";
      } else {
        assert |u| + 1 < |v| && v[|v| - 1] == rest[|rest| - 1];
        LastBytes(rest);
        LastNewline(rest);
      }
    }
  }

  lemma CutBytes(u: string, rest: string)
    ensures |EncodeText(u + "\n" + rest)| == |EncodeText(u)| + 1 + |EncodeText(rest)|
    ensures Newlines(u + "\n" + rest) == Newlines(u) + 1 + Newlines(rest)
    ensures EncodeText("") == [] && Newlines("") == 0
  {
    EncodeSplits(u + "\n", rest);
    EncodeSplits(u, "\n");
    OneByte('\n');
    NewlinesSplit(u + "\n", rest);
    NewlinesSplit(u, "\n");
    assert Newlines("\n") == 1;
  }

  lemma LastBytes(s: string)
    requires s != ""
    ensures |EncodeText([s[|s| - 1]])| <= |EncodeText(s)|
  {
    EncodeSplits(s[..|s| - 1], [s[|s| - 1]]);
    assert s == s[..|s| - 1] + [s[|s| - 1]];
  }

  lemma LastNewline(s: string)
    requires s != ""
    ensures EndsLine(s) ==> Newlines(s) >= 1
  {
    NewlinesSplit(s[..|s| - 1], [s[|s| - 1]]);
    assert s == s[..|s| - 1] + [s[|s| - 1]];
  }

  // ----- The marker -----

  /** Whether the replacement left by a split character is there at the end of the cut text. */
  predicate KeepsReplacement(s: string, group: bool) {
    IsSplit(s) && (group ==> FewLines(Cut(s, false), 10))
  }

  /** The characters of the input that are left after both cuts. */
  function Kept(s: string, group: bool): string {
    var u := Cut(s, group);
    if KeepsReplacement(s, group) && u != "" then u[..|u| - 1] else u
  }

  lemma ReplacementBytes()
    ensures |EncodeText([REPLACEMENT])| == 3
  {
    assert [REPLACEMENT][1..] == "";
  }

  lemma CutOfKept(s: string, group: bool)
    ensures Cut(s, group) == Kept(s, group) + if KeepsReplacement(s, group) then [REPLACEMENT] else ""
    ensures KeepsReplacement(s, group) ==> Kept(s, group) == if group then Unreturned(Fitting(s)) else Fitting(s)
  {
    hide EncodeText, Lines, Lossy, Newlines;
    ByteCut(s);
    var t, u := Cut(s, false), Cut(s, group);
    if KeepsReplacement(s, group) {
      if group {
        CappedBytes(t, MAX_LINES);
        assert u == Capped(t, MAX_LINES);
        UnreturnedAppend(Fitting(s), REPLACEMENT);
      }
      assert u[|u| - 1] == REPLACEMENT;
    } else {
      assert u + "" == u;
    }
  }

  /** What is left is a beginning of the input, but for the returns at the ends of lines in a group. */
  lemma KeptIsPrefix(s: string, group: bool)
    ensures Kept(s, group) <= if group then Unreturned(Fitting(s)) else Fitting(s)
    ensures '\r' !in s ==> Kept(s, group) <= s
  {
    hide EncodeText, Lines, Lossy, Newlines, Unreturned, WholePrefix;
    ByteCut(s);
    CutOfKept(s, group);
    var t, f := Cut(s, false), Fitting(s);
    if group && !KeepsReplacement(s, group) {
      GroupCut(s);
      if IsSplit(s) {
        UnreturnedAppend(f, REPLACEMENT);
        UnreturnedEnds(t);
        assert !EndsLine(t) && Cut(s, true) != Unreturned(t);
        ShorterPrefix(Cut(s, true), Unreturned(f), [REPLACEMENT], Unreturned(t));
      } else {
        assert f + "" == f;
      }
    }
    if '\r' !in s { UnreturnedWithout(f); }
  }

  lemma ShorterPrefix(u: string, v: string, last: string, w: string)
    requires u <= w && w == v + last && |last| == 1 && u != w
    ensures u <= v
  {
  }

  /** When the marker is absent at most 4 bytes have been cut; when it is there, something has. */
  lemma MarkerBounds(s: string, group: bool)
    ensures !IsMarked(s, group) ==> |EncodeText(s)| <= |EncodeText(Kept(s, group))| + 4
    ensures IsMarked(s, group) ==> Kept(s, group) != s
  {
    hide EncodeText, Cut, KeepsReplacement, Kept;
    CutOfKept(s, group);
    EncodeSplits(Kept(s, group), [REPLACEMENT]);
    ReplacementBytes();
    assert Kept(s, group) + "" == Kept(s, group);
  }

  /** The input has few enough lines as far as it fits, and these bytes go with the ends of its lines. */
  predicate LinesFit(s: string) {
    Newlines(Fitting(s)) + (if EndsLine(Fitting(s)) && !IsSplit(s) then 0 else 1) <= 10
  }

  function LineEndBytes(s: string): nat {
    Returns(Fitting(s)) + if EndsLine(Fitting(s)) && !IsSplit(s) then 1 else 0
  }

  /** The lines fit and, of an input that fits, its line ends are one byte; of one that does not, there is no more
      of it, line ends added, than the marker allows for. */
  predicate LosesUnmarked(s: string, group: bool) {
    var size, split := |EncodeText(s)|, MAX_BYTES - |EncodeText(Fitting(s))|;
    var lost := if group then LineEndBytes(s) else 0;
    && (group ==> LinesFit(s))
    && if size <= 512 then lost == 1 else size + lost <= 512 + if split == 0 then 1 else 4 - split
  }

  /** Exactly when characters are lost without a mark.  An input of up to 512 bytes loses some in a group
      only: one line feed at its end, or one carriage return at the end of a line, if it has up to ten
      lines.  A longer one loses some if it is longer by one byte, or by no more than the replacement of a
      split character makes up for; in a group bytes lost at the ends of lines count as well. */
  lemma UnmarkedLossIff(s: string, group: bool)
    ensures (Kept(s, group) != s && !IsMarked(s, group)) <==> LosesUnmarked(s, group)
  {
    hide EncodeText, Lossy, WholePrefix, Newlines, Returns, Lines, Unreturned, Kept;
    CutSize(s, group);
    ByteCut(s);
    if |EncodeText(s)| > MAX_BYTES {
      KeptBytes(s, group);
    } else if group ==> LinesFit(s) {
      SmallIsKept(s, group);
    }
  }

  /** The size of the cut text. */
  lemma CutSize(s: string, group: bool)
    ensures var size, left := |EncodeText(Cut(s, group))|, |EncodeText(Fitting(s))| + if IsSplit(s) then 3 else 0;
            if !group then size == left
            else if LinesFit(s) then size + LineEndBytes(s) == left
            else size + 2 <= left && (IsSplit(s) ==> size + 4 <= left)
  {
    hide EncodeText, Lossy, WholePrefix, Newlines, Returns, Lines, Unreturned;
    ByteCut(s);
    var f, t := Fitting(s), Cut(s, false);
    EncodeSplits(f, [REPLACEMENT]);
    ReplacementBytes();
    assert f + "" == f;
    if group {
      CappedBytes(t, MAX_LINES);
      assert Cut(s, true) == Capped(t, MAX_LINES);
      UnreturnedAppend(f, REPLACEMENT);
      OneMore(f);
      if t != "" { AtLeastOne(t[|t| - 1]); }
    }
  }

  lemma OneMore(f: string)
    ensures Newlines(f + [REPLACEMENT]) == Newlines(f) && !EndsLine(f + [REPLACEMENT])
  {
    NewlinesSplit(f, [REPLACEMENT]);
    NoNewlines([REPLACEMENT]);
  }

  lemma AtLeastOne(c: char)
    ensures |EncodeText([c])| >= 1 && (c == REPLACEMENT ==> |EncodeText([c])| == 3)
  {
    assert [c][1..] == "";
  }

  lemma SmallIsKept(s: string, group: bool)
    requires |EncodeText(s)| <= 512 && (group ==> LinesFit(s))
    ensures Kept(s, group) != s <==> group && LineEndBytes(s) > 0
  {
    hide EncodeText, Lossy, WholePrefix, Newlines, Returns, Lines, Unreturned;
    ByteCut(s);
    CutSize(s, group);
    assert s + "" == s;
    if group {
      CappedBytes(s, MAX_LINES);
      if Returns(s) == 0 { UnreturnedNone(s); }
      assert Cut(s, true) == Capped(s, MAX_LINES);
    }
  }

  lemma KeptBytes(s: string, group: bool)
    ensures |EncodeText(Kept(s, group))| <= |EncodeText(Fitting(s))|
  {
    hide EncodeText, Lossy, WholePrefix, Newlines, Lines, Unreturned, Kept;
    KeptIsPrefix(s, group);
    UnreturnedBytes(Fitting(s));
    PrefixBytes(Kept(s, group), if group then Unreturned(Fitting(s)) else Fitting(s));
  }

  lemma PrefixBytes(p: string, s: string)
    requires p <= s
    ensures |EncodeText(p)| <= |EncodeText(s)|
  {
    EncodeSplits(p, s[|p|..]);
    assert s == p + s[|p|..];
  }

  // ----- What is not shown -----

  /** Carriage returns are never shown. */
  lemma {:induction false} UnreturnedShows(s: string)
    ensures Shown(Unreturned(s)) == Shown(s)
  {
    if s != "" {
      var more := Unreturned(s[1..]);
      UnreturnedShows(s[1..]);
      assert ([s[0]] + more)[1..] == more && "" + more == more;
    }
  }

  /** The message shows what is kept. */
  lemma KeptIsShown(s: string, group: bool)
    ensures Shown(Cut(s, group)) == Shown(Kept(s, group))
  {
    hide EncodeText, Cut, KeepsReplacement, Kept;
    CutOfKept(s, group);
    ShownSplits(Kept(s, group), if KeepsReplacement(s, group) then [REPLACEMENT] else "");
    assert [REPLACEMENT][1..] == "";
  }

  /** What is kept when the lines fit. */
  lemma KeptIs(s: string, group: bool)
    requires group ==> LinesFit(s)
    ensures !group ==> Kept(s, group) == Fitting(s)
    ensures group ==>
              Unreturned(Fitting(s)) == Kept(s, group) + if EndsLine(Fitting(s)) && !IsSplit(s) then "\n" else ""
  {
    hide EncodeText, Lossy, WholePrefix, Newlines, Returns, Lines, Unreturned;
    ByteCut(s);
    CutOfKept(s, group);
    var f := Fitting(s);
    assert f + "" == f;
    OneMore(f);
    if group && !IsSplit(s) {
      CappedBytes(f, MAX_LINES);
      assert Cut(s, true) == Capped(f, MAX_LINES);
      assert Unreturned(f) + "" == Unreturned(f) && Cut(s, true) + "" == Cut(s, true);
      if EndsLine(f) { LastLineFeed(f); }
    }
  }

  lemma LastLineFeed(f: string)
    requires FewLines(f, MAX_LINES) && EndsLine(f)
    ensures Unreturned(f) == Capped(f, MAX_LINES) + "\n"
  {
    hide EncodeText, Capped, Unreturned, Newlines, Returns;
    LineCut(f, MAX_LINES);
    CappedBytes(f, MAX_LINES);
    UnreturnedBytes(f);
    var u, v := Capped(f, MAX_LINES), Unreturned(f);
    var rest := v[|u| + 1..];
    assert v == u + "\n" + rest;
    CutBytes(u, rest);
    NoBytes(rest);
    assert u + "\n" + "" == u + "\n";
  }

  lemma NoBytes(s: string)
    requires |EncodeText(s)| == 0
    ensures s == ""
  {
  }

  /** The characters of the input that do not fit. */
  function Beyond(s: string): string {
    if |Fitting(s)| <= |s| then s[|Fitting(s)|..] else ""
  }

  /** Exactly when characters that would have been shown are missing from the message without a mark.  Of an input
      of up to 512 bytes only the line feed at its end can be, in a group.  Of a longer one, something behind what
      fits has to be shown, or a line feed to be the last that fits. */
  lemma ShownLossIff(s: string, group: bool)
    ensures (Shown(Cut(s, group)) != Shown(s) && !IsMarked(s, group)) <==>
        if |EncodeText(s)| <= 512 then group && LinesFit(s) && EndsLine(s) && Returns(s) == 0
        else LosesUnmarked(s, group) &&
             (Shown(Beyond(s)) != "" || (group && EndsLine(Fitting(s)) && !IsSplit(s)))
  {
    hide EncodeText, Lossy, WholePrefix, Newlines, Returns, Lines, Unreturned, Kept, Cut, Shown, KeepsReplacement;
    KeptIsShown(s, group);
    ByteCut(s);
    UnmarkedLossIff(s, group);
    if group ==> LinesFit(s) { ShownIsLostIff(s, group); }
    NothingShown();
    assert |EncodeText(s)| <= MAX_BYTES ==> Beyond(s) == "";
  }

  lemma NothingShown()
    ensures Shown("") == ""
  {
  }

  lemma ShownIsLostIff(s: string, group: bool)
    requires group ==> LinesFit(s)
    ensures Shown(Kept(s, group)) != Shown(s) <==>
        Shown(Beyond(s)) != "" || (group && EndsLine(Fitting(s)) && !IsSplit(s))
  {
    hide EncodeText, Lossy, WholePrefix, Newlines, Returns, Lines, Unreturned, Kept, LinesFit;
    ByteCut(s);
    KeptIs(s, group);
    var f, k := Fitting(s), Kept(s, group);
    var r := s[|f|..];
    var end := if EndsLine(f) && !IsSplit(s) then "\n" else "";
    assert s == f + r && "\n"[1..] == "" && k + "" == k;
    ShownSplits(f, r);
    if group {
      UnreturnedShows(f);
      ShownSplits(k, end);
      assert Shown(s) == Shown(k) + Shown(end) + Shown(r);
    }
  }

  // ----- What a message says -----

  /** Neither a control character, but for tab and line feed, nor the replacement. */
  predicate MayBeSeen(c: char) {
    c == '\t' || c == '\n' || ' ' <= c < '\U{7F}' || ('\U{A0}' <= c && c != '\U{FFFD}')
  }

  /** `t` is made of the characters of `s` that may be seen, all of them and in their order: `at` says where each
      comes from. */
  ghost predicate PicksSeen(t: string, s: string, at: seq<nat>) {
    && |at| == |t|
    && (forall i | 0 <= i < |at| :: at[i] < |s| && s[at[i]] == t[i] && MayBeSeen(t[i]))
    && (forall i, j | 0 <= i < j < |at| :: at[i] < at[j])
    && (forall k: nat | k < |s| && MayBeSeen(s[k]) :: k in at)
  }

  lemma {:induction false} ShownPicks(s: string) returns (at: seq<nat>)
    ensures PicksSeen(Shown(s), s, at)
  {
    hide MayBeSeen, IsShown, PicksSeen;
    at := [];
    if s == "" {
      NothingPicked();
    } else {
      var more := ShownPicks(s[1..]);
      SeenIff(s[0]);
      at := PicksOneMore(s, Shown(s[1..]), more);
    }
  }

  lemma NothingPicked()
    ensures PicksSeen("", "", [])
  {
  }

  lemma SeenIff(c: char)
    ensures MayBeSeen(c) <==> IsShown(c)
  {
  }

  lemma PicksOneMore(s: string, u: string, more: seq<nat>) returns (at: seq<nat>)
    requires s != "" && PicksSeen(u, s[1..], more)
    ensures PicksSeen((if MayBeSeen(s[0]) then [s[0]] else "") + u, s, at)
  {
    hide MayBeSeen, PicksSeen;
    PickedInOrder(u, s[1..], more);
    var later := seq(|more|, i requires 0 <= i < |more| => more[i] + 1);
    var d := if MayBeSeen(s[0]) then 1 else 0;
    at := (if d == 1 then [0] else []) + later;
    PicksMoreSeen(s, u, more, later);
    PicksAll(s, u, more, later, at, d);
    PicksAreSeen(s, u, later, at, d);
    PicksInOrder(more, later, at, d);
    PicksMake((if d == 1 then [s[0]] else "") + u, s, at);
  }

  lemma PicksMake(t: string, s: string, at: seq<nat>)
    requires |at| == |t| && forall i | 0 <= i < |at| :: at[i] < |s| && s[at[i]] == t[i] && MayBeSeen(t[i])
    requires forall i, j | 0 <= i < j < |at| :: at[i] < at[j]
    requires forall k: nat | k < |s| && MayBeSeen(s[k]) :: k in at
    ensures PicksSeen(t, s, at)
  {
    hide MayBeSeen;
  }

  lemma PicksInOrder(more: seq<nat>, later: seq<nat>, at: seq<nat>, d: nat)
    requires d <= 1 && at == (if d == 1 then [0] else []) + later
    requires forall i, j | 0 <= i < j < |more| :: more[i] < more[j]
    requires |later| == |more| && forall i | 0 <= i < |more| :: later[i] == more[i] + 1
    ensures forall i, j | 0 <= i < j < |at| :: at[i] < at[j]
  {
    forall i, j | 0 <= i < j < |at| ensures at[i] < at[j] {
      assert at[j] == later[j - d] && (i >= d ==> at[i] == later[i - d]);
    }
  }

  /** The order and range that picking more has. */
  lemma PickedInOrder(u: string, s: string, more: seq<nat>)
    requires PicksSeen(u, s, more)
    ensures |more| == |u| && forall i, j | 0 <= i < j < |more| :: more[i] < more[j]
  {
    hide MayBeSeen;
  }

  lemma PicksAreSeen(s: string, u: string, later: seq<nat>, at: seq<nat>, d: nat)
    requires s != "" && |u| == |later| && d <= 1 && at == (if d == 1 then [0] else []) + later
    requires d == 1 ==> MayBeSeen(s[0])
    requires forall i | 0 <= i < |later| :: 0 < later[i] < |s| && s[later[i]] == u[i] && MayBeSeen(u[i])
    ensures var t := (if d == 1 then [s[0]] else "") + u;
            |t| == |at| && forall i | 0 <= i < |at| :: at[i] < |s| && s[at[i]] == t[i] && MayBeSeen(t[i])
  {
    hide MayBeSeen;
  }

  lemma PicksMoreSeen(s: string, u: string, more: seq<nat>, later: seq<nat>)
    requires s != "" && PicksSeen(u, s[1..], more)
    requires |later| == |more| && forall i | 0 <= i < |more| :: later[i] == more[i] + 1
    ensures |u| == |later|
    ensures forall i | 0 <= i < |later| :: 0 < later[i] < |s| && s[later[i]] == u[i] && MayBeSeen(u[i])
  {
    hide MayBeSeen;
    forall i | 0 <= i < |later| ensures 0 < later[i] < |s| && s[later[i]] == u[i] && MayBeSeen(u[i]) {
      assert s[1..][more[i]] == s[later[i]];
    }
  }

  lemma PicksAll(s: string, u: string, more: seq<nat>, later: seq<nat>, at: seq<nat>, d: nat)
    requires s != "" && PicksSeen(u, s[1..], more) && d <= 1 && (MayBeSeen(s[0]) <==> d == 1)
    requires |later| == |more| && forall i | 0 <= i < |more| :: later[i] == more[i] + 1
    requires at == (if d == 1 then [0] else []) + later
    ensures forall k: nat | k < |s| && MayBeSeen(s[k]) :: k in at
  {
    hide MayBeSeen;
    forall k: nat | k < |s| && MayBeSeen(s[k]) ensures k in at {
      if k == 0 {
        assert at[0] == 0;
      } else {
        assert s[1..][k - 1] == s[k] && k - 1 in more;
        var i :| 0 <= i < |more| && more[i] == k - 1;
        assert at[i + d] == later[i] == k;
      }
    }
  }

  lemma {:induction false} AllSeen(s: string)
    requires forall k | 0 <= k < |s| :: MayBeSeen(s[k])
    ensures Shown(s) == s
  {
    if s != "" {
      assert forall k | 0 <= k < |s[1..]| :: s[1..][k] == s[k + 1];
      SeenIff(s[0]);
      AllSeen(s[1..]);
    }
  }

  /** What the text is cut to: the longest beginning of at most 512 bytes, with a replacement if they end inside of a
      character, and in a group the first ten of its lines. */
  ghost predicate IsCutTo(s: string, group: bool, u: string) {
    exists p, t ::
      && p <= s && |EncodeText(p)| <= 512 && (forall q | p <= q <= s && |EncodeText(q)| <= 512 :: q == p)
      && t == p + (if |EncodeText(p)| < 512 < |EncodeText(s)| then "\U{FFFD}" else "")
      && if group then IsLineCut(u, Unreturned(t), 10) else u == t
  }

  lemma CutIs(s: string, group: bool)
    ensures IsCutTo(s, group, Cut(s, group))
  {
    hide EncodeText, Lossy, WholePrefix, IsLineCut, Unreturned;
    ByteCut(s);
    GroupCut(s);
    var p, t := Fitting(s), Cut(s, false);
    assert t == p + if |EncodeText(p)| < 512 < |EncodeText(s)| then "\U{FFFD}" else "";
    forall q | p <= q <= s && |EncodeText(q)| <= 512 ensures q == p { WholePrefixIsLongest(s, 512, q); }
    assert p + "" == p;
  }

  /** A message is the cut text's characters that may be seen, with entities for four of them, between its tags; and
      a mark if and only if more than a byte is missing. */
  ghost predicate IsMessageOf(r: string, s: string, group: bool) {
    exists body, u, at :: IsWrapped(r, s, group, body, u, at)
  }

  ghost predicate IsWrapped(r: string, s: string, group: bool, body: string, u: string, at: seq<nat>) {
    && IsCutTo(s, group, u) && PicksSeen(Unescape(body), u, at) && IsSafe(body)
    && r == "<pre>" + body + "</pre>" + if |EncodeText(u)| + 1 < |EncodeText(s)| then "... (truncated)" else ""
  }

  lemma MessageSays(s: string, group: bool) returns (body: string, u: string, at: seq<nat>)
    requires s != ""
    ensures IsWrapped(Message(s, group), s, group, body, u, at)
  {
    hide EncodeText, Cut, Shown, Escape, IsCutTo, PicksSeen, IsSafe, Unescape;
    u := Cut(s, group);
    CutIs(s, group);
    body := Escape(Shown(u));
    at := ShownPicks(u);
    UnescapeInverts(Shown(u));
    EscapeIsSafe(Shown(u));
  }

  /** At most 512 bytes of characters that may be seen, and in a group on one line. */
  ghost predicate IsShort(s: string, group: bool) {
    s != "" && |EncodeText(s)| <= 512 && forall k | 0 <= k < |s| :: MayBeSeen(s[k]) && (group ==> s[k] != '\n')
  }

  /** Without its tags, and with entities read back, the message is the text. */
  ghost predicate ComesBack(r: string, s: string) {
    exists body :: r == "<pre>" + body + "</pre>" && Unescape(body) == s && IsSafe(body)
  }

  lemma ShortTextComesBack(s: string, group: bool) returns (body: string)
    requires IsShort(s, group)
    ensures Message(s, group) == "<pre>" + body + "</pre>" && Unescape(body) == s && IsSafe(body)
  {
    hide EncodeText, Escape, IsSafe, Unescape, MayBeSeen, Lossy, WholePrefix, Lines, Shown;
    ByteCut(s);
    assert s + "" == s;
    if group {
      NoNewlinesIn(s);
      OneLine(s, MAX_LINES);
      assert Cut(s, true) == Capped(s, MAX_LINES);
    }
    AllSeen(s);
    body := Escape(s);
    UnescapeInverts(s);
    EscapeIsSafe(s);
    assert "<pre>" + body + "</pre>" + "" == "<pre>" + body + "</pre>";
  }

  lemma NoNewlinesIn(s: string)
    requires forall k | 0 <= k < |s| :: s[k] != '\n'
    ensures '\n' !in s
  {
  }

  lemma {:induction false} LettersBytes(n: nat)
    ensures |EncodeText(seq(n, _ => 'a'))| == n
  {
    if n > 0 {
      assert seq(n, _ => 'a')[1..] == seq(n - 1, _ => 'a');
      LettersBytes(n - 1);
    }
  }

  /** For instance, the last of 513 letters is lost unmarked. */
  lemma LetterIsLostUnmarked()
    ensures var s := seq(513, _ => 'a'); Kept(s, false) != s && !IsMarked(s, false)
  {
    var s := seq(513, _ => 'a');
    LettersBytes(513);
    ByteCut(s);
    UnmarkedLossIff(s, false);
    hide *;
  }

  /** In a group, so is the line feed that ends a short result. */
  lemma LineFeedIsLostUnmarked()
    ensures Kept("a\n", true) != "a\n" && !IsMarked("a\n", true)
  {
    var s := "a\n";
    assert s[1..] == "\n" && s[2..] == "" && "\n"[1..] == "";
    assert |EncodeText(s)| == 2 && Newlines(s) == 1 && Returns(s) == 0;
    ByteCut(s);
    UnmarkedLossIff(s, true);
  }

  // ----- Size -----

  lemma {:induction false} LossyIsShorter(bs: Bytes)
    ensures |Lossy(bs)| <= |bs|
  {
    if bs != [] { LossyIsShorter(bs[Extent(bs)..]); }
  }

  lemma {:induction false} CappedIsShorter(t: string, m: nat)
    ensures |Capped(t, m)| <= |t|
    ensures m > 0 ==> Newlines(Capped(t, m)) < m
  {
    var i := FindNewline(t);
    if m == 0 {
    } else if t == "" || i == |t| {
      assert t[..i] == t;
      NoNewlines(t);
      assert t == "" || Take(Lines(t), m) == [t];
    } else {
      var first := WithoutReturn(t[..i]);
      NoNewlines(first);
      FirstLine(t, m, i);
      CappedIsShorter(t[i + 1..], m - 1);
      NewlinesSplit(first, "\n" + Capped(t[i + 1..], m - 1));
      NewlinesSplit("\n", Capped(t[i + 1..], m - 1));
    }
  }

  lemma {:induction false} ShownIsShorter(s: string)
    ensures |Shown(s)| <= |s| && Newlines(Shown(s)) <= Newlines(s)
  {
    if s != "" {
      ShownIsShorter(s[1..]);
      NewlinesSplit(if IsShown(s[0]) then [s[0]] else "", Shown(s[1..]));
    }
  }

  lemma {:induction false} EscapeIsShort(s: string)
    ensures |Escape(s)| <= 6 * |s| && Newlines(Escape(s)) == Newlines(s)
  {
    if s != "" {
      EscapeIsShort(s[1..]);
      NewlinesSplit(Entity(s[0]), Escape(s[1..]));
      if Entity(s[0]) != [s[0]] { NoNewlines(Entity(s[0])); }
    }
  }

  /** A message has at most 3098 characters, and in a group at most 10 lines. */
  lemma MessageIsShort(s: string, group: bool)
    ensures |Message(s, group)| <= 3098
    ensures group ==> Newlines(Message(s, group)) < 10
  {
    hide Escape, Shown, IsMarked, Newlines, Lossy, EncodeText, Lines, Join;
    LossyIsShorter(Take(EncodeText(s), MAX_BYTES));
    var t := Cut(s, false);
    var u := Cut(s, group);
    if group {
      assert u == Capped(t, MAX_LINES);
      CappedIsShorter(t, MAX_LINES);
    }
    ShownIsShorter(u);
    EscapeIsShort(Shown(u));
    NoNewlines("no output");
    Framed(Escape(Shown(u)), IsMarked(s, group));
  }

  lemma Framed(body: string, marked: bool)
    ensures var r := "<pre>" + body + "</pre>" + if marked then "... (truncated)" else "";
            |r| <= |body| + 26 && Newlines(r) == Newlines(body)
  {
    var end := "</pre>" + if marked then TRUNCATED else "";
    NoNewlines(end);
    NoNewlines("<pre>");
    NewlinesSplit("<pre>", body);
    NewlinesSplit("<pre>" + body, end);
    hide Newlines;
    assert "<pre>" + body + "</pre>" + (if marked then TRUNCATED else "") == "<pre>" + body + end;
  }
}
