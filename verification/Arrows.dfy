/** Arrows group to the left: a function whose body is another without parentheses is no program. */
module Arrows {
  import opened Options
  import opened Spellings
  import opened Syntax
  import opened LRParser
  import opened LRSoundness
  import opened LRCompleteness
  import opened Grammar
  import opened Precedence
  import opened WholeTable
  import opened Fitting
  import opened Leading
  import Lexer
  import LexerRuns
  import opened Rendering
  import opened Phrases
  import T = Trees
  import Printing
  import PrintingStatements
  import Texts

  // ----- Looking for an arrow behind a bare arrow -----

  /** What has been seen last: an arrow, or a name behind one; or an arrow, a name and an arrow at some time. */
  datatype Scan = Else | Pointed | Named | Found

  function Advanced(q: Scan, k: nat): Scan {
    if q == Found then Found
    else if k == ARROW then if q == Named then Found else Pointed
    else if k == NAME && q == Pointed then Named
    else Else
  }

  function Scanned(q: Scan, ks: seq<Token>): Scan {
    if ks == [] then q else Advanced(Scanned(q, ks[..|ks| - 1]), ks[|ks| - 1].kind)
  }

  lemma {:induction false} ScannedSplits(q: Scan, a: seq<Token>, b: seq<Token>)
    ensures Scanned(q, a + b) == Scanned(Scanned(q, a), b)
  {
    if b == [] {
      assert a + b == a;
    } else {
      assert (a + b)[..|a + b| - 1] == a + b[..|b| - 1];
      ScannedSplits(q, a, b[..|b| - 1]);
    }
  }

  lemma {:induction false} FoundStays(ks: seq<Token>)
    ensures Scanned(Found, ks) == Found
  {
    if ks != [] { FoundStays(ks[..|ks| - 1]); }
  }

  predicate IsBareArrow(ks: seq<Token>, i: nat) {
    i + 2 < |ks| && ks[i].kind == ARROW && ks[i + 1].kind == NAME && ks[i + 2].kind == ARROW
  }

  lemma BareArrowIsFound(q: Scan, ks: seq<Token>, i: nat)
    requires IsBareArrow(ks, i)
    ensures Scanned(q, ks) == Found
  {
    var a, b := ks[..i + 3], ks[i + 3..];
    assert ks == a + b && a[..i + 2][..i + 1][..i] == ks[..i];
    assert a[..i + 2] == ks[..i + 2] && ks[..i + 2][..i + 1] == ks[..i + 1];
    assert Scanned(q, ks[..i + 1]) == Advanced(Scanned(q, ks[..i + 1][..i]), ARROW);
    assert Scanned(q, ks[..i + 2]) == Advanced(Scanned(q, ks[..i + 1]), NAME);
    assert Scanned(q, a) == Found;
    ScannedSplits(q, a, b);
    FoundStays(b);
  }

  // ----- In derivations -----

  predicate IsNameValue(v: Value) {
    v.Ast? && v.node.Name?
  }

  predicate IsClear(q: Scan) {
    q == Else || q == Named
  }

  /** Phrases that a constant or a name is made of. */
  predicate IsSmall(x: nat) {
    x == CONSTANTS || x == QUOTED_STRING || x == IDENTIFIER
  }

  /** A derivation that means `v`, scanned from `q`: it ends in no arrow, and behind one only in what is no name. */
  predicate ScansWell(q: Scan, d: Tree, v: Value) {
    var r := Scanned(q, Yield(d));
    && (IsClear(q) ==> IsClear(r) && (IsSmall(Symbol(d)) ==> r == Else) &&
                       (r == Named && Symbol(d) == EXPRESSION ==> !IsNameValue(v)))
    && (q == Pointed && (IsSmall(Symbol(d)) || (Symbol(d) == EXPRESSION && Opens(d, 0))) ==> IsClear(r))
  }

  ghost predicate AllScanWell(ds: seq<Tree>, vs: seq<Value>) {
    |vs| == |ds| && forall i, q | 0 <= i < |ds| && ds[i].Branch? :: ScansWell(q, ds[i], vs[i])
  }

  /** The state behind the first `i` parts. */
  function StateBehind(q: Scan, ds: seq<Tree>, i: nat): Scan
    requires i <= |ds|
  {
    if i == 0 then q else Scanned(StateBehind(q, ds, i - 1), Yield(ds[i - 1]))
  }

  lemma {:induction false} StateBehindIs(q: Scan, ds: seq<Tree>, i: nat)
    requires i <= |ds|
    ensures StateBehind(q, ds, i) == Scanned(q, YieldAll(ds[..i]))
  {
    hide Yield;
    if i > 0 {
      StateBehindIs(q, ds, i - 1);
      assert ds[..i][..i - 1] == ds[..i - 1];
      ScannedSplits(q, YieldAll(ds[..i - 1]), Yield(ds[i - 1]));
    }
  }

  lemma LeafScans(q: Scan, d: Tree)
    requires d.Leaf?
    ensures Scanned(q, Yield(d)) == Advanced(q, d.token.kind)
  {
    assert Yield(d)[..0] == [];
  }

  /** Parts without an arrow among them. */
  lemma {:induction false} PartsStayClear(q: Scan, p: nat, ds: seq<Tree>, vs: seq<Value>, i: nat, n: nat)
    requires IsDerivation(Branch(p, ds)) && AllScanWell(ds, vs) && i <= n <= |ds|
    requires IsClear(StateBehind(q, ds, i)) && forall j | i <= j < n :: ProductionAt(p).rhs[j] != ARROW
    ensures IsClear(StateBehind(q, ds, n))
    decreases n - i
  {
    hide ProductionAt, Yield, ScansWell, IsDerivation;
    IsInstance(p, ds);
    if i < n {
      PartIs(p, ds, i);
      assert StateBehind(q, ds, i + 1) == Scanned(StateBehind(q, ds, i), Yield(ds[i]));
      if ds[i].Leaf? {
        LeafScans(StateBehind(q, ds, i), ds[i]);
        LeafHasSymbol(ds[i]);
      } else {
        BranchStaysClear(StateBehind(q, ds, i), ds[i], vs[i]);
      }
      PartsStayClear(q, p, ds, vs, i + 1, n);
    }
  }

  lemma BranchStaysClear(q: Scan, d: Tree, v: Value)
    requires ScansWell(q, d, v) && IsClear(q)
    ensures IsClear(Scanned(q, Yield(d)))
  {
    hide Yield, Scanned;
  }

  /** Where the arrow stands in productions. */
  lemma ArrowIn(p: nat, j: nat)
    requires p < 82 && j < |ProductionAt(p).rhs| && ProductionAt(p).rhs[j] == ARROW
    ensures (p == 43 && j == 3 && ProductionAt(p).rhs[2] == CLOSE) || (p == 44 && j == 1)
  {
    hide StatementProduction, ExpressionProduction, ListProduction;
    if p <= 26 {
      NoArrowInStatements(p);
    } else if p <= 54 {
      ArrowInExpressions(p, j);
    } else {
      NoArrowInLists(p);
    }
  }

  lemma NoArrowInStatements(p: nat)
    ensures ARROW !in StatementProduction(p).rhs
  {
    if p < 14 { NoArrowInFirst(p); } else { NoArrowInOthers(p); }
    hide StatementProduction;
  }

  lemma NoArrowInFirst(p: nat)
    requires p < 14
    ensures ARROW !in StatementProduction(p).rhs
  {
  }

  lemma NoArrowInOthers(p: nat)
    requires 14 <= p
    ensures ARROW !in StatementProduction(p).rhs
  {
  }

  lemma NoArrowInLists(p: nat)
    requires 55 <= p < 82
    ensures ARROW !in ListProduction(p).rhs
  {
  }

  lemma ArrowInExpressions(p: nat, j: nat)
    requires 27 <= p <= 54 && j < |ExpressionProduction(p).rhs| && ExpressionProduction(p).rhs[j] == ARROW
    ensures (p == 43 && j == 3 && ExpressionProduction(p).rhs[2] == CLOSE) || (p == 44 && j == 1)
  {
  }

  /** Where a production ends in a phrase, in which its scan ends. */
  predicate EndsSmall(p: nat) {
    p == 46 || p == 48 || p == 49 || p == 61 || p == 66 || p == 67
  }

  lemma LastParts(p: nat)
    requires 27 <= p < 82 && (ProductionAt(p).lhs == EXPRESSION || IsSmall(ProductionAt(p).lhs))
    ensures var rhs := ProductionAt(p).rhs;
            && rhs != [] && (p >= 55 ==> IsSmall(ProductionAt(p).lhs))
            && (if EndsSmall(p) then IsSmall(rhs[|rhs| - 1]) else !IsPhrase(rhs[|rhs| - 1]) || IsOpen(p))
            && (p >= 55 ==> !IsOpen(p))
  {
    hide StatementProduction;
  }

  lemma OpenBuildsNoName(number: string -> Number, p: nat, vs: seq<Value>, last: Token)
    requires IsOpen(p)
    ensures !IsNameValue(ActAt(number, p, vs, last)) && ProductionAt(p).lhs == EXPRESSION
  {
    hide StatementProduction, ListProduction, ListAct, StatementAct;
  }

  lemma NotSmall(p: nat)
    requires 1 < p <= 26
    ensures ProductionAt(p).lhs != EXPRESSION && !IsSmall(ProductionAt(p).lhs)
  {
    hide ExpressionProduction, ListProduction;
  }

  /** What a production without an arrow ends in, from a clear state. */
  lemma ClearEnd(number: string -> Number, q: Scan, p: nat, ds: seq<Tree>, vs: seq<Value>, last: Token)
    requires IsDerivation(Branch(p, ds)) && AllScanWell(ds, vs) && p != 43 && p != 44 && ds != []
    requires IsClear(StateBehind(q, ds, |ds| - 1))
    ensures var r := StateBehind(q, ds, |ds|);
            && IsClear(r) && (IsSmall(ProductionAt(p).lhs) ==> r == Else)
            && (r == Named && ProductionAt(p).lhs == EXPRESSION ==> !IsNameValue(ActAt(number, p, vs, last)))
  {
    hide ProductionAt, Yield, IsDerivation, ActAt, IsNameValue, Scanned;
    IsInstance(p, ds);
    var n := |ds| - 1;
    PartIs(p, ds, n);
    if ds[n].Leaf? {
      LeafScans(StateBehind(q, ds, n), ds[n]);
      LeafHasSymbol(ds[n]);
      if ProductionAt(p).rhs[n] == ARROW { ArrowIn(p, n); }
    } else {
      assert ScansWell(StateBehind(q, ds, n), ds[n], vs[n]);
      if p <= 26 { NotSmall(p); }
      else if ProductionAt(p).lhs == EXPRESSION || IsSmall(ProductionAt(p).lhs) {
        LastParts(p);
        if IsOpen(p) { OpenBuildsNoName(number, p, vs, last); }
        hide IsOpen;
      }
    }
  }

  lemma FirstParts(p: nat)
    requires 27 <= p < 82 && p != 44 && (ProductionAt(p).lhs == EXPRESSION || IsSmall(ProductionAt(p).lhs))
    ensures var x := ProductionAt(p).rhs[0];
            if IsPhrase(x) then IsSmall(x) || (x == EXPRESSION && IsContinued(p)) else x != ARROW
    ensures ProductionAt(p).rhs != []
  {
    hide StatementProduction;
  }

  lemma EmptyScans(q: Scan, p: nat, v: Value)
    requires 1 < p < 82 && ProductionAt(p).rhs == []
    ensures ScansWell(q, Branch(p, []), v)
  {
    hide ProductionAt;
    assert YieldAll([]) == [] && Yield(Branch(p, [])) == [];
    if p <= 26 { NotSmall(p); }
    else if ProductionAt(p).lhs == EXPRESSION || IsSmall(ProductionAt(p).lhs) { LastParts(p); }
  }

  lemma YieldIs(q: Scan, p: nat, ds: seq<Tree>)
    ensures Scanned(q, Yield(Branch(p, ds))) == StateBehind(q, ds, |ds|)
  {
    StateBehindIs(q, ds, |ds|);
    assert ds[..|ds|] == ds;
  }

  /** Behind an arrow, the first part of an expression that no arrow goes on with. */
  lemma FirstIsClear(p: nat, ds: seq<Tree>, vs: seq<Value>)
    requires IsDerivation(Branch(p, ds)) && AllScanWell(ds, vs) && p != 44
    requires IsSmall(ProductionAt(p).lhs) || (ProductionAt(p).lhs == EXPRESSION && Opens(Branch(p, ds), 0))
    ensures ds != [] && IsClear(StateBehind(Pointed, ds, 1))
  {
    hide ProductionAt, Yield, IsDerivation, Scanned, IsPhrase;
    IsInstance(p, ds);
    if p <= 26 { NotSmall(p); }
    FirstParts(p);
    EdgesAreExpressions(p);
    PartIs(p, ds, 0);
    assert StateBehind(Pointed, ds, 1) == Scanned(Pointed, Yield(ds[0]));
    if ds[0].Leaf? {
      LeafScans(Pointed, ds[0]);
      LeafHasSymbol(ds[0]);
    } else {
      assert IsSmall(Symbol(ds[0])) || (Symbol(ds[0]) == EXPRESSION && Opens(ds[0], 0));
      assert ScansWell(Pointed, ds[0], vs[0]);
      assert IsClear(Scanned(Pointed, Yield(ds[0])));
    }
  }

  lemma NoArrowIn(p: nat)
    requires 1 < p < 82 && p != 43 && p != 44
    ensures forall j | 0 <= j < |ProductionAt(p).rhs| :: ProductionAt(p).rhs[j] != ARROW
  {
    hide ProductionAt;
    forall j | 0 <= j < |ProductionAt(p).rhs| ensures ProductionAt(p).rhs[j] != ARROW {
      if ProductionAt(p).rhs[j] == ARROW { ArrowIn(p, j); }
    }
  }

  lemma OtherScansWell(number: string -> Number, q: Scan, p: nat, ds: seq<Tree>, vs: seq<Value>, last: Token)
    requires IsDerivation(Branch(p, ds)) && AllScanWell(ds, vs) && p != 43 && p != 44
    ensures ScansWell(q, Branch(p, ds), ActAt(number, p, vs, last))
  {
    hide ProductionAt, Yield, IsDerivation, Scanned, IsPhrase, ActAt, AllScanWell, IsNameValue, IsSmall, Opens;
    var n := |ds|;
    IsInstance(p, ds);
    NoArrowIn(p);
    YieldIs(q, p, ds);
    if ds == [] {
      EmptyScans(q, p, ActAt(number, p, vs, last));
    } else if IsClear(q) {
      PartsStayClear(q, p, ds, vs, 0, n - 1);
      ClearEnd(number, q, p, ds, vs, last);
    } else if q == Pointed && (IsSmall(ProductionAt(p).lhs) || (ProductionAt(p).lhs == EXPRESSION &&
        Opens(Branch(p, ds), 0))) {
      FirstIsClear(p, ds, vs);
      PartsStayClear(q, p, ds, vs, 1, n);
    }
  }

  // Arrows themselves.

  lemma BareArrowScansWell(number: string -> Number, q: Scan, ds: seq<Tree>, vs: seq<Value>, last: Token)
    requires IsDerivation(Branch(44, ds)) && Grouped(Branch(44, ds)) && AllScanWell(ds, vs)
    requires ActAt(number, 44, vs, last) != Thrown
    ensures ScansWell(q, Branch(44, ds), ActAt(number, 44, vs, last))
  {
    ArrowParts(ds);
    ArrowTakesName(number, vs, last);
    OpenBuildsNoName(number, 44, vs, last);
    YieldIs(q, 44, ds);
    hide ProductionAt, Yield, IsDerivation, Scanned, ActAt, Grouped, IsNameValue;
    if IsClear(q) {
      var q1 := Scanned(q, Yield(ds[0]));
      assert ScansWell(q, ds[0], vs[0]) && ScansWell(Pointed, ds[2], vs[2]);
      assert StateBehind(q, ds, 3) == Scanned(StateBehind(q, ds, 2), Yield(ds[2]));
      assert StateBehind(q, ds, 2) == Scanned(StateBehind(q, ds, 1), Yield(ds[1]));
      assert StateBehind(q, ds, 1) == q1;
      LeafScans(q1, ds[1]);
    }
  }

  lemma ArrowParts(ds: seq<Tree>)
    requires IsDerivation(Branch(44, ds)) && Grouped(Branch(44, ds))
    ensures |ds| == 3 && ds[0].Branch? && Symbol(ds[0]) == EXPRESSION && ds[1].Leaf? && ds[1].token.kind == ARROW
    ensures ds[2].Branch? && Symbol(ds[2]) == EXPRESSION && Opens(ds[2], 0) && !Opens(Branch(44, ds), 0)
    ensures ProductionAt(44).lhs == EXPRESSION && !IsSmall(EXPRESSION)
  {
    assert GroupsParts(44, ds);
    IsInstance(44, ds);
    PartIs(44, ds, 0);
    PartIs(44, ds, 1);
    PartIs(44, ds, 2);
  }

  lemma ArrowTakesName(number: string -> Number, vs: seq<Value>, last: Token)
    requires |vs| == 3
    ensures ActAt(number, 44, vs, last) == Thrown || IsNameValue(vs[0])
  {
  }

  lemma ParenthesesArrowParts(ds: seq<Tree>)
    requires IsDerivation(Branch(43, ds)) && Grouped(Branch(43, ds))
    ensures |ds| == 5 && ds[0].Leaf? && ds[1].Branch? && ds[2].Leaf? && ds[3].Leaf? && ds[4].Branch?
    ensures ds[0].token.kind == OPEN && ds[2].token.kind == CLOSE && ds[3].token.kind == ARROW
    ensures Symbol(ds[4]) == EXPRESSION && Opens(ds[4], 0)
    ensures ProductionAt(43).lhs == EXPRESSION && !IsSmall(EXPRESSION)
  {
    assert GroupsParts(43, ds);
    IsInstance(43, ds);
    PartIs(43, ds, 0);
    PartIs(43, ds, 1);
    PartIs(43, ds, 2);
    PartIs(43, ds, 3);
    PartIs(43, ds, 4);
  }

  lemma ParenthesesArrowScansWell(number: string -> Number, q: Scan, ds: seq<Tree>, vs: seq<Value>, last: Token)
    requires IsDerivation(Branch(43, ds)) && Grouped(Branch(43, ds)) && AllScanWell(ds, vs)
    ensures ScansWell(q, Branch(43, ds), ActAt(number, 43, vs, last))
  {
    ParenthesesArrowParts(ds);
    OpenBuildsNoName(number, 43, vs, last);
    YieldIs(q, 43, ds);
    hide ProductionAt, Yield, IsDerivation, Scanned, ActAt, Grouped, IsNameValue;
    if q != Found {
      assert ScansWell(Else, ds[1], vs[1]) && ScansWell(Pointed, ds[4], vs[4]);
      ParametersScan(q, ds);
      StateBehindMore(q, ds, 4);
    }
  }

  lemma StateBehindMore(q: Scan, ds: seq<Tree>, i: nat)
    requires i < |ds|
    ensures StateBehind(q, ds, 0) == q && StateBehind(q, ds, i + 1) == Scanned(StateBehind(q, ds, i), Yield(ds[i]))
  {
    hide Yield, Scanned;
  }

  lemma ParametersScan(q: Scan, ds: seq<Tree>)
    requires |ds| == 5 && ds[0].Leaf? && ds[2].Leaf? && ds[3].Leaf? && q != Found
    requires ds[0].token.kind == OPEN && ds[2].token.kind == CLOSE && ds[3].token.kind == ARROW
    requires IsClear(Scanned(Else, Yield(ds[1])))
    ensures StateBehind(q, ds, 4) == Pointed
  {
    hide Yield, Scanned, StateBehind;
    StateBehindMore(q, ds, 0);
    StateBehindMore(q, ds, 1);
    StateBehindMore(q, ds, 2);
    StateBehindMore(q, ds, 3);
    LeafScans(q, ds[0]);
    LeafScans(StateBehind(q, ds, 2), ds[2]);
    LeafScans(StateBehind(q, ds, 3), ds[3]);
  }

  lemma {:induction false} DerivationScansWell(number: string -> Number, d: Tree, before: Token, below: Loc)
    requires d.Branch? && IsDerivation(d) && Grouped(d) && Meaning(Whole(number), d, before, below).0 != Thrown
    ensures forall q :: ScansWell(q, d, Meaning(Whole(number), d, before, below).0)
    decreases d, 0
  {
    hide ProductionAt, IsDerivation, ScansWell, ActAt, Grouped, MeaningAll;
    var Branch(p, ds) := d;
    var vs := MeaningAll(Whole(number), ds, before, below).0;
    var last := LastOf(YieldAll(ds), before);
    MeaningOfBranch(Whole(number), p, ds, before, below);
    assert Meaning(Whole(number), d, before, below).0 == ActAt(number, p, vs, last);
    IsInstance(p, ds);
    ThrownLasts(number, p, vs, last);
    PartsAreGrouped(p, ds);
    PartsScanWell(number, ds, before, below);
    forall q ensures ScansWell(q, d, ActAt(number, p, vs, last)) {
      if p == 44 { BareArrowScansWell(number, q, ds, vs, last); }
      else if p == 43 { ParenthesesArrowScansWell(number, q, ds, vs, last); }
      else { OtherScansWell(number, q, p, ds, vs, last); }
    }
  }

  lemma ThrownLasts(number: string -> Number, p: nat, vs: seq<Value>, last: Token)
    requires p < 82 && |vs| == |ProductionAt(p).rhs| && ActAt(number, p, vs, last) != Thrown
    ensures !AnyThrown(vs)
  {
    hide ProductionAt;
  }

  lemma PartsAreGrouped(p: nat, ds: seq<Tree>)
    requires IsDerivation(Branch(p, ds)) && Grouped(Branch(p, ds))
    ensures forall i | 0 <= i < |ds| :: IsDerivation(ds[i]) && Grouped(ds[i])
  {
    hide ProductionAt, GroupsParts;
  }

  lemma {:induction false} PartsScanWell(number: string -> Number, ds: seq<Tree>, before: Token, below: Loc)
    requires forall i | 0 <= i < |ds| :: IsDerivation(ds[i]) && Grouped(ds[i])
    requires !AnyThrown(MeaningAll(Whole(number), ds, before, below).0)
    ensures AllScanWell(ds, MeaningAll(Whole(number), ds, before, below).0)
    decreases ds
  {
    hide IsDerivation, ScansWell, Grouped, Meaning;
    if ds != [] {
      var t, n := Whole(number), |ds| - 1;
      var (vs, ls) := MeaningAll(t, ds[..n], before, below);
      var ws := MeaningAll(t, ds, before, below).0;
      assert forall i | 0 <= i < n :: ws[i] == vs[i];
      PartsScanWell(number, ds[..n], before, below);
      if ds[n].Branch? {
        assert !ws[n].Thrown?;
        DerivationScansWell(number, ds[n], LastOf(YieldAll(ds[..n]), before), LastPlace(ls, below));
      }
    }
  }

  // ----- Programs -----

  /** No text with an arrow whose body is a bare name and followed by another arrow is a program, wherever it stands
      in it: `x => y => z` is read as a function of the function `x => y`. */
  lemma BareArrowIsNoProgram(number: string -> Number, text: string, i: nat)
    requires var ks := LexerRuns.Tokens(Lexer.Init(text)); ks.Some? && IsBareArrow(ks.value, i)
    ensures Texts.Program(number, text) == None
  {
    hide Texts.Program, LexerRuns.Tokens, Meaning, IsDerivation, Grouped, IsBareArrow, ScansWell;
    var p := Texts.Program(number, text);
    if p.Some? {
      Texts.ProgramIsGrouped(number, text, p.value);
      var ks := LexerRuns.Tokens(Lexer.Init(text)).value;
      var d: Tree, eof: Token :|
        DerivesProgram(d) && eof.kind == EOF && ks == Yield(d) + [eof] &&
        p.value.Sequence? && Texts.MeaningOf(number, d) == Statements(p.value.stmts);
      ProgramFits(d);
      DerivationScansWell(number, d, NO_TOKEN, START_LOC);
      BareArrowIsFound(Else, ks, i);
      ScannedSplits(Else, Yield(d), [eof]);
      ProgramScans(number, d, eof, Texts.MeaningOf(number, d));
      assert false;
    }
  }

  lemma ProgramScans(number: string -> Number, d: Tree, eof: Token, v: Value)
    requires ScansWell(Else, d, v) && eof.kind == EOF
    ensures Scanned(Scanned(Else, Yield(d)), [eof]) == Else
  {
    hide Yield, Symbol, Opens;
    assert [eof][..0] == [];
  }

  // ----- An arrow in parentheses -----

  lemma JoinedTwo(a: Phrase, b: Phrase)
    ensures Joined([a]) == a.lexemes && Joined([a, b]) == a.lexemes + b.lexemes
  {
    assert [a][..0] == [] && [a, b][..1] == [a] && Joined([]) + a.lexemes == a.lexemes;
  }

  lemma JoinedThree(a: Phrase, b: Phrase, c: Phrase)
    ensures Joined([a, b, c]) == a.lexemes + b.lexemes + c.lexemes
  {
    assert [a, b, c][..2] == [a, b];
    JoinedTwo(a, b);
  }

  lemma MarksAre()
    ensures Mark(ARROW).lexemes == [Single(Word(ARROW, "=>"))] && Mark(OPEN).lexemes == [Single(Word(OPEN, "("))]
    ensures Mark(CLOSE).lexemes == [Single(Word(CLOSE, ")"))]
    ensures Mark(SEMICOLON).lexemes == [Single(Word(SEMICOLON, ";"))]
  {
  }

  function ArrowWords(x: string, y: string, z: string): seq<Word> {
    [Word(NAME, x), Word(ARROW, "=>"), Word(OPEN, "("), Word(NAME, y), Word(ARROW, "=>"), Word(NAME, z),
     Word(CLOSE, ")"), Word(SEMICOLON, ";")]
  }

  function ArrowTree(x: string, y: string, z: string): Node {
    FunDef([x], Node.Return(FunDef([y], Node.Return(Name(z)))))
  }

  lemma VariableLexemes(number: string -> Number, x: string)
    ensures Printing.Variable(number, x).lexemes == [Single(Word(NAME, x))]
  {
    JoinedTwo(Printing.Ident(x), Printing.Ident(x));
    hide ActAt;
  }

  /** `x => e`, with `e` in parentheses if it is an arrow itself. */
  lemma LambdaLexemes(number: string -> Number, x: string, e: Phrase)
    ensures var o := if Opens(e.tree, 0) then e.lexemes else Mark(OPEN).lexemes + e.lexemes + Mark(CLOSE).lexemes;
            Printing.Lambda(number, [x], e).lexemes == [Single(Word(NAME, x))] + Mark(ARROW).lexemes + o
    ensures !Opens(Printing.Lambda(number, [x], e).tree, 0)
  {
    hide ActAt, Mark, Joined;
    VariableLexemes(number, x);
    JoinedThree(Mark(OPEN), e, Mark(CLOSE));
    JoinedThree(Printing.Variable(number, x), Mark(ARROW), Printing.Opened(number, e, 0));
  }

  lemma ArrowExpression(number: string -> Number, x: string, y: string, z: string)
    ensures Printing.Expression(number, ArrowTree(x, y, z)) ==
            Printing.Lambda(number, [x], Printing.Lambda(number, [y], Printing.Variable(number, z)))
  {
    hide Printing.Lambda, Printing.Variable;
    var m := FunDef([y], Node.Return(Name(z)));
    assert Printing.Expression(number, Name(z)) == Printing.Variable(number, z);
    assert Printing.Expression(number, m) == Printing.Lambda(number, [y], Printing.Variable(number, z));
  }

  lemma ArrowStatement(number: string -> Number, n: Node)
    requires n.FunDef?
    ensures PrintingStatements.StatementList(number, [n]).lexemes ==
            Printing.Expression(number, n).lexemes + Mark(SEMICOLON).lexemes
  {
    hide ActAt, Mark, Joined, Printing.Expression;
    JoinedTwo(Printing.Expression(number, n), Mark(SEMICOLON));
    assert [n][1..] == [];
    JoinedTwo(PrintingStatements.Statement(number, n), PrintingStatements.NoStatements(number));
    NothingJoined(number);
  }

  lemma ArrowLexemes(number: string -> Number, x: string, y: string, z: string)
    ensures PrintingStatements.StatementList(number, [ArrowTree(x, y, z)]).lexemes ==
            Singles(ArrowWords(x, y, z))
  {
    hide Mark, Printing.Lambda, Printing.Variable, Printing.Expression, PrintingStatements.StatementList;
    MarksAre();
    var inner := Printing.Lambda(number, [y], Printing.Variable(number, z));
    ArrowExpression(number, x, y, z);
    ArrowStatement(number, ArrowTree(x, y, z));
    VariableLexemes(number, z);
    VariableOpens(number, z);
    LambdaLexemes(number, y, Printing.Variable(number, z));
    LambdaLexemes(number, x, inner);
  }

  lemma VariableOpens(number: string -> Number, x: string)
    ensures Opens(Printing.Variable(number, x).tree, 0)
  {
    hide ActAt;
  }

  lemma NothingJoined(number: string -> Number)
    ensures PrintingStatements.NoStatements(number).lexemes == []
  {
    hide ActAt;
  }

  /** A function whose body is another in parentheses is one: `x => (y => z);`, in any spacing. */
  lemma ArrowInParenthesesIsProgram(number: string -> Number, x: string, y: string, z: string, lead: string,
                                    gaps: seq<string>)
    requires IsName(x) && IsName(y) && IsName(z) && IsFiller(lead) && |gaps| == 8
    requires AreApart(Singles(ArrowWords(x, y, z)), gaps)
    ensures Texts.Program(number, lead + Rendered(Singles(ArrowWords(x, y, z)), gaps)) ==
            Some(Sequence([ArrowTree(x, y, z)]))
  {
    hide IsName, IsFiller, AreApart, Rendered, Texts.Program, PrintingStatements.StatementList, Singles;
    var n := ArrowTree(x, y, z);
    ArrowLexemes(number, x, y, z);
    ArrowIsTree(number, x, y, z);
    Texts.TreeIsWritten(number, Sequence([n]), lead, gaps);
  }

  lemma ArrowIsTree(number: string -> Number, x: string, y: string, z: string)
    requires IsName(x) && IsName(y) && IsName(z)
    ensures T.IsProgramTree(number, Sequence([ArrowTree(x, y, z)])) && |Singles(ArrowWords(x, y, z))| == 8
  {
    hide IsName;
    var m := FunDef([y], Node.Return(Name(z)));
    assert T.IsExprTree(number, Name(z));
    assert T.IsExprTree(number, m) && T.AllNames([x]) && T.AllNames([y]);
    assert T.IsExprTree(number, ArrowTree(x, y, z));
  }
}
