/** Where the parser's table reduces by a production that has been read to its end. */
module Endings {
  import opened Options
  import opened LRParser
  import opened Grammar
  import opened Precedence
  import opened WholeTable
  import opened Places

  // ----- The end of a production -----

  /** On a token of kind `k` state `s` reduces by `p`. */
  predicate ReducesOn(s: nat, k: nat, p: nat) {
    if WholeDefault(s).Some? then WholeDefault(s) == Some(p) else WholeAction(s, k) == Reduce(p)
  }

  /** What has to hold for a production to be reduced by where it ends. */
  predicate EndsWell(s: nat, p: nat, k: nat) {
    (IsOpen(p) ==> Pull(k) <= HoldOf(p)) && !(p == 80 && s == 25) && !(p == 73 && s == 11)
  }

  /** The state behind all of a production. */
  function Last(s: nat, p: nat): nat {
    if p == 2 || p == 69 || p == 73 || p == 78 then s
    else if p <= 26 then LastOfStatement(p)
    else if p == 49 || p == 80 then Named(s)
    else if p <= 54 then LastOfExpression(p)
    else LastOfPart(p)
  }

  function LastOfStatement(p: nat): nat {
    if p == 4 then 42 else if p == 8 then 166 else if p == 11 then 92 else if p == 12 || p == 13 then p + 37
    else if p == 14 then 114 else if p == 15 || p == 16 then p + 56 else if p == 17 then 153 else if p == 18 then 152
    else if p == 19 then 96 else if p == 20 then 174 else if p == 21 then 170 else if p == 22 then 164
    else if p == 23 then 173 else if p == 24 then 119 else if p == 25 then 139 else if p == 26 then 160 else p
  }

  function LastOfExpression(p: nat): nat {
    if p <= 31 then p + 70 else if p <= 34 then p + 46 else if p <= 42 then p + 67 else if p == 43 then 154
    else if p == 44 then 110 else if p == 45 then 134 else if p == 46 then 112 else if p == 47 then 125
    else if p == 48 then 26 else if p == 50 then 161 else if p == 51 then 128 else if p == 52 then 93
    else if p == 53 then 145 else 148
  }

  function LastOfPart(p: nat): nat
    requires p > 54
  {
    if p <= 62 then p - 26 else if p <= 65 then p - 25 else if p == 66 then 90 else if p == 67 then 89
    else if p == 68 then 87 else if p == 70 then 146 else if p == 71 then 88 else if p == 72 then 46
    else if p == 74 then 132 else if p == 75 then 47 else if p == 76 then 133 else if p == 77 then 83
    else if p == 79 then 144 else 37
  }

  lemma LastStatement(s: nat, p: nat)
    requires 3 <= p <= 18
    ensures At(s, p, |ProductionAt(p).rhs|) == Last(s, p) && ItemAt(Last(s, p)) == Item(p, |ProductionAt(p).rhs|)
  {
    hide ExpressionProduction, ListProduction, AtExpression, AtList;
  }

  lemma LastOtherStatement(s: nat, p: nat)
    requires 19 <= p <= 26
    ensures At(s, p, |ProductionAt(p).rhs|) == Last(s, p) && ItemAt(Last(s, p)) == Item(p, |ProductionAt(p).rhs|)
  {
    hide ExpressionProduction, ListProduction, AtExpression, AtList;
  }

  lemma LastExpression(s: nat, p: nat)
    requires 27 <= p <= 54 && (p == 49 ==> AfterIdentifier(s).Some? && TakesOperand(s))
    ensures At(s, p, |ProductionAt(p).rhs|) == Last(s, p) && ItemAt(Last(s, p)) == Item(p, |ProductionAt(p).rhs|)
  {
    hide StatementProduction, ListProduction, AtStatement, AtList;
  }

  lemma LastPart(s: nat, p: nat)
    requires 55 <= p <= 81 && p != 69 && p != 73 && p != 78 && (p == 80 ==> s == 91 || s == 126)
    ensures At(s, p, |ProductionAt(p).rhs|) == Last(s, p) && ItemAt(Last(s, p)) == Item(p, |ProductionAt(p).rhs|)
  {
    hide StatementProduction, ExpressionProduction, AtStatement, AtExpression;
  }

  /** The states that have no other way than to reduce, marks apart. */
  predicate TakesNothing(u: nat) {
    !EndsExpression(u) && !TakesOperand(u) && !TakesName(u)
  }

  lemma NothingIsNext(u: nat, k: nat)
    requires TakesNothing(u) && AfterMark(u, k).None? && !IsPhrase(k)
    ensures Next(u, k).None?
  {
    hide AfterMark, AfterPhrase, AfterExpression, AfterIdentifier, AfterStatements;
  }

  lemma StatementTakesNothing(s: nat, p: nat, k: nat)
    requires 3 <= p <= 26 && p != 19
    ensures TakesNothing(Last(s, p)) && AfterMark(Last(s, p), k).None?
  {
  }

  lemma StatementEnds(s: nat, p: nat, k: nat)
    requires 3 <= p <= 26 && p != 19 && Admits(s, ProductionAt(p).lhs, k)
    ensures Reduces(Last(s, p), p, k) && Next(Last(s, p), k).None? && !IsPhrase(k)
  {
    hide ExpressionProduction, ListProduction, Next, AfterMark, TakesNothing;
    StatementTakesNothing(s, p, k);
    NothingIsNext(Last(s, p), k);
  }

  lemma AssignmentEnds(s: nat, k: nat)
    requires Admits(s, ASSIGNMENT, k)
    ensures Reduces(96, 19, k) && Next(96, k).None? && !IsPhrase(k)
  {
    hide AfterPhrase;
  }

  lemma CompleteEnds(u: nat, p: nat, k: nat)
    requires Completes(u) && (Continues(k) || EndsOperands(k)) && 27 <= p <= 54
    ensures !IsPhrase(k) && Reduces(u, p, k) && (Next(u, k).None? <==> Pull(k) <= Hold(u))
  {
    hide AfterPhrase, AfterExpression, AfterIdentifier, AfterStatements, Hold, Tightness, Behind;
  }

  lemma OperandEnds(u: nat, p: nat, k: nat)
    requires u == 134 || u == 112 || u == 125 || u == 26 || u == 161 || u == 128 || u == 93 || u == 145
    requires (Continues(k) || EndsOperands(k)) && 27 <= p <= 54
    ensures !IsPhrase(k) && Reduces(u, p, k) && Next(u, k).None?
  {
    hide AfterPhrase, AfterExpression, AfterIdentifier, AfterStatements, Hold, Tightness, Behind, Next;
    assert TakesNothing(u) && AfterMark(u, k).None?;
    NothingIsNext(u, k);
  }

  lemma NameEnds(s: nat, k: nat)
    requires Admits(s, EXPRESSION, k)
    ensures !IsPhrase(k) && Reduces(Named(s), 49, k) && Next(Named(s), k).None?
  {
    hide AfterPhrase, AfterExpression, AfterStatements, Hold, Tightness, Behind;
  }

  lemma ConstantEnds(u: nat, p: nat, k: nat)
    requires 29 <= u <= 40 || u == 90 || u == 89
    requires Continues(k) || EndsOperands(k) || (u == 37 && k == OPEN)
    requires 55 <= p <= 67 || p == 81
    ensures !IsPhrase(k) && Reduces(u, p, k) && Next(u, k).None?
  {
    hide AfterPhrase, AfterExpression, AfterStatements, Hold, Tightness, Behind;
  }

  lemma OperandListEnds(s: nat, p: nat, k: nat)
    requires (p == 68 || p == 70 || p == 71) && Admits(s, ProductionAt(p).lhs, k)
    ensures !IsPhrase(k) && Reduces(Last(s, p), p, k) && Next(Last(s, p), k).None?
  {
    hide StatementProduction, ExpressionProduction, AfterPhrase, AfterExpression, AfterStatements, Behind;
    assert k == CLOSE || k == CLOSE_BRACKET;
  }

  lemma PairListEnds(s: nat, p: nat, k: nat)
    requires (p == 72 || (74 <= p <= 76)) && Admits(s, ProductionAt(p).lhs, k)
    ensures !IsPhrase(k) && Reduces(Last(s, p), p, k) && Next(Last(s, p), k).None?
  {
    hide StatementProduction, ExpressionProduction, AfterPhrase, AfterExpression, AfterStatements, Behind;
    assert p != 76 ==> k == CLOSE_BRACE;
  }

  lemma NameListEnds(s: nat, p: nat, k: nat)
    requires (p == 77 || p == 79 || (p == 80 && s != 25)) && Admits(s, ProductionAt(p).lhs, k)
    ensures !IsPhrase(k) && Reduces(Last(s, p), p, k) && Next(Last(s, p), k).None?
  {
    hide StatementProduction, ExpressionProduction, AfterPhrase, AfterExpression, AfterStatements, Behind;
    assert k == CLOSE;
  }

  lemma EmptyEnds(s: nat, p: nat, k: nat)
    requires (p == 2 || p == 69 || p == 73 || p == 78) && Admits(s, ProductionAt(p).lhs, k) && !(p == 73 && s == 11)
    ensures !IsPhrase(k) && Reduces(s, p, k) && Next(s, k).None? && EmptyIn(s) == Some(p) && ProductionAt(p).rhs == []
  {
    hide AfterPhrase, AfterExpression, Hold, Tightness, Behind;
  }

  lemma EndReducesIff(u: nat, k: nat, p: nat)
    requires ReducesBy(u) == Some(p) && Reduces(u, p, k) && !IsPhrase(k)
    requires HasDefault(u) ==> Next(u, k).None?
    ensures ReducesOn(u, k, p) <==> Next(u, k).None?
  {
    if !HasDefault(u) { NoDefault(u); }
    hide ReducesBy, Next, Reduces, IsPhrase;
  }

  predicate IsEmpty(p: nat) {
    p == 2 || p == 69 || p == 73 || p == 78
  }

  lemma LastIs(s: nat, p: nat, k: nat)
    requires 1 < p < 82 && Admits(s, ProductionAt(p).lhs, k) && !IsEmpty(p) && !(p == 80 && s == 25)
    ensures At(s, p, |ProductionAt(p).rhs|) == Last(s, p) && ReducesBy(Last(s, p)) == Some(p)
  {
    hide At, Last, ItemAt, EmptyIn;
    if p <= 18 { LastStatement(s, p); }
    else if p <= 26 { LastOtherStatement(s, p); }
    else if p <= 54 {
      if p == 49 { NameHasPlace(s, k); }
      LastExpression(s, p);
    } else { LastPart(s, p); }
    hide StatementProduction, ExpressionProduction, AfterIdentifier;
  }

  lemma NameHasPlace(s: nat, k: nat)
    requires Admits(s, ProductionAt(49).lhs, k)
    ensures TakesOperand(s) && AfterIdentifier(s).Some?
  {
  }

  lemma EmptyIs(s: nat, p: nat)
    requires EmptyIn(s) == Some(p)
    ensures ReducesBy(s) == Some(p)
  {
    hide ProductionAt;
    PlacesOfStatements();
    PlacesWithinOperands();
    PlacesOfPhrases();
    PlacesOfOperands();
  }

  lemma HoldIs(s: nat, p: nat)
    requires IsOpen(p)
    ensures Completes(Last(s, p)) && Hold(Last(s, p)) == HoldOf(p)
  {
  }

  /** Where a production ends, it is reduced by exactly under the condition that the precedences give, and but for
      the two conflicts that are settled for a name and a block. */
  lemma EndsIff(s: nat, p: nat, k: nat)
    requires 1 < p < 82 && Admits(s, ProductionAt(p).lhs, k)
    ensures ReducesOn(At(s, p, |ProductionAt(p).rhs|), k, p) <==> EndsWell(s, p, k)
  {
    if IsEmpty(p) {
      EmptyEndsIff(s, p, k);
    } else if p == 80 && s == 25 {
      OneNameDoesNotEnd(k);
    } else {
      LastIs(s, p, k);
      LastEndsIff(s, p, k);
    }
  }

  lemma EmptyEndsIff(s: nat, p: nat, k: nat)
    requires IsEmpty(p) && Admits(s, ProductionAt(p).lhs, k)
    ensures ReducesOn(At(s, p, |ProductionAt(p).rhs|), k, p) <==> EndsWell(s, p, k)
  {
    hide Next, Reduces, Admits, ReducesBy, WholeAction, EmptyIn, WholeDefault;
    if p == 73 && s == 11 {
      EmptyObjectDoesNotEnd(k);
      EmptyRightSides();
    } else {
      EmptyEnds(s, p, k);
      EmptyIs(s, p);
      NoDefaultIn(s, p);
      EndReducesIff(s, k, p);
    }
  }

  lemma NoDefaultIn(s: nat, p: nat)
    requires EmptyIn(s) == Some(p)
    ensures !HasDefault(s)
  {
  }

  lemma EmptyObjectDoesNotEnd(k: nat)
    ensures !ReducesOn(11, k, 73)
  {
    hide Next, Reduces;
    EmptyIs(11, 2);
    hide ReducesBy;
  }

  lemma OneNameDoesNotEnd(k: nat)
    ensures !ReducesOn(At(25, 80, |ProductionAt(80).rhs|), k, 80)
  {
    hide Next, Reduces, StatementProduction;
  }

  lemma LastEndsIff(s: nat, p: nat, k: nat)
    requires 1 < p < 82 && Admits(s, ProductionAt(p).lhs, k) && !IsEmpty(p) && !(p == 80 && s == 25)
    requires ReducesBy(Last(s, p)) == Some(p)
    ensures ReducesOn(Last(s, p), k, p) <==> EndsWell(s, p, k)
  {
    hide Next, Reduces, ReducesBy, WholeAction, WholeDefault, Admits, Completes, Hold;
    var u := Last(s, p);
    if IsOpen(p) {
      ExpressionFollows(s, p, k);
      HoldIs(s, p);
      CompleteEnds(u, p, k);
      CompleteHasNoDefault(u);
      EndReducesIff(u, k, p);
    } else {
      LastEnds(s, p, k);
      EndReducesIff(u, k, p);
    }
  }

  lemma CompleteHasNoDefault(u: nat)
    requires Completes(u)
    ensures !HasDefault(u)
  {
  }

  lemma ExpressionFollows(s: nat, p: nat, k: nat)
    requires 27 <= p <= 54 && Admits(s, ProductionAt(p).lhs, k)
    ensures Admits(s, EXPRESSION, k) && (Continues(k) || EndsOperands(k))
  {
    hide StatementProduction, ListProduction;
  }

  lemma PartFollows(s: nat, p: nat, k: nat)
    requires (55 <= p <= 67 || p == 81) && Admits(s, ProductionAt(p).lhs, k)
    ensures Continues(k) || EndsOperands(k) || (p == 81 && k == OPEN)
  {
    hide StatementProduction, ExpressionProduction;
  }

  lemma LastEnds(s: nat, p: nat, k: nat)
    requires 1 < p < 82 && Admits(s, ProductionAt(p).lhs, k) && !IsEmpty(p) && !(p == 80 && s == 25) && !IsOpen(p)
    ensures !IsPhrase(k) && Reduces(Last(s, p), p, k) && Next(Last(s, p), k).None?
  {
    hide Admits, Next, Reduces, IsPhrase;
    if p == 19 { AssignmentFollows(s, k); AssignmentEnds(s, k); }
    else if p <= 26 { StatementEnds(s, p, k); }
    else if p <= 54 {
      ExpressionFollows(s, p, k);
      if p == 49 { NameEnds(s, k); } else { OperandEnds(Last(s, p), p, k); }
    } else if p <= 67 || p == 81 {
      PartFollows(s, p, k);
      ConstantEnds(Last(s, p), p, k);
    } else if p <= 71 { OperandListEnds(s, p, k); }
    else if p <= 76 { PairListEnds(s, p, k); }
    else { NameListEnds(s, p, k); }
  }

  lemma AssignmentFollows(s: nat, k: nat)
    requires Admits(s, ProductionAt(19).lhs, k)
    ensures Admits(s, ASSIGNMENT, k)
  {
    hide Admits;
  }
}
