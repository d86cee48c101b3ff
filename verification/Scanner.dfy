/** The scanner as an object whose fields each step updates. */
module Scanner {
  import opened Options
  import opened LRParser
  import opened Lexer
  import LexerRuns

  class ScannerObject {
    var input: string
    var matched: string
    var text: string
    var line: nat
    var place: Loc
    var conditions: seq<Condition>
    var done: bool

    constructor SetInput(source: string)
      ensures Abs() == Init(source)
    {
      input, matched, text, line, place := source, "", "", 0, Loc(1, 1, 0, 0);
      conditions, done := [Initial], false;
    }

    function Abs(): State
      reads this
    {
      State(input, matched, text, line, place, conditions, done)
    }

    method Begin(c: Condition)
      modifies this`conditions
      ensures conditions == old(conditions) + [c]
    {
      conditions := conditions + [c];
    }

    method PopState()
      modifies this`conditions
      ensures conditions == if |old(conditions)| > 1 then old(conditions)[..|old(conditions)| - 1] else old(conditions)
    {
      if |conditions| > 1 { conditions := conditions[..|conditions| - 1]; }
    }

    /** The action of rule `r`: a change of condition, a token, or neither. */
    method PerformAction(r: nat) returns (a: Answer)
      modifies this`conditions
      ensures conditions == AfterRule(r, old(conditions))
      ensures a == match TokenOf(r) case Some(k) => Kind(k) case None => Nothing
    {
      if r == 30 { Begin(DoubleQuoted); }
      else if r == 31 { Begin(SingleQuoted); }
      else if r == 32 { Begin(QuotedEscape); }
      else if 33 <= r <= 35 { PopState(); }
      match TokenOf(r) {
        case Some(k) => a := Kind(k);
        case None => a := Nothing;
      }
    }

    /** Takes a match of length `n` off the input and updates everything that keeps count. */
    method TestMatch(r: nat, n: nat) returns (a: Answer)
      requires n <= |input|
      modifies this
      ensures Abs() == Consume(old(Abs()), r, n).(done := old(done) && old(input)[n..] == "")
      ensures a == match TokenOf(r) case Some(k) => Kind(k) case None => Nothing
    {
      var m := input[..n];
      line := line + Lines(m);
      place := Loc(place.lastLine, line + 1, place.lastColumn, ColumnAfter(m, place.lastColumn));
      text := m;
      input := input[n..];
      matched := matched + m;
      a := PerformAction(r);
      if done && input != "" { done := false; }
    }

    method NextStep() returns (a: Answer)
      modifies this
      ensures (a, Abs()) == Next(old(Abs()))
    {
      hide Match, Rules, Lines, ColumnAfter;
      if done { return Kind(END); }
      if input == "" { done := true; }
      text := "";
      var rules := Rules(Current(Abs()));
      var i := 0;
      while i < |rules| && Match(rules[i], input).None?
        invariant 0 <= i <= |rules|
        invariant FirstMatch(rules, input) == FirstMatch(rules, input, i)
      {
        i := i + 1;
      }
      if i < |rules| {
        MatchFits(rules[i], input);
        a := TestMatch(rules[i], Match(rules[i], input).value);
      } else if input == "" {
        a := Kind(END);
      } else {
        a := LexicalError;
      }
    }

    /** The next token. */
    method LexToken() returns (a: Answer)
      modifies this
      ensures (a, Abs()) == LexerRuns.Lex(old(Abs()))
      decreases |input|
    {
      LexerRuns.NextProgresses(Abs());
      a := NextStep();
      if a.Nothing? { a := LexToken(); }
    }
  }
}
