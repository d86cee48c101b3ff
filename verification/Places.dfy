/** Where the parser's table leads along the right-hand side of a production, wherever its phrase may stand. */
module Places {
  import opened Options
  import opened Grammar
  import opened Precedence
  import opened WholeTable

  // ----- Where the parts of a production lead -----

  /** The state behind the first `i` symbols of production `p` begun in state `s`. */
  function At(s: nat, p: nat, i: nat): nat {
    if i == 0 then s
    else if p <= 26 then AtStatement(s, p, i)
    else if p <= 54 then AtExpression(s, p, i)
    else AtList(s, p, i)
  }

  function Pick(states: seq<nat>, i: nat): nat
    requires i > 0
  {
    if i <= |states| then states[i - 1] else 0
  }

  function AtStatement(s: nat, p: nat, i: nat): nat
    requires i > 0
  {
    if p == 4 then Pick([4, 42], i)
    else if p == 8 then Pick([8, 43, 91, 130, 147, 156, 162, 166], i)
    else if p == 11 then Pick([11, 44, 92], i)
    else if p == 12 || p == 13 then Pick([p, p + 37], i)
    else if p == 14 then Pick([14, 69, 114], i)
    else if p == 15 || p == 16 then Pick([p, p + 56], i)
    else if p == 17 then Pick([21, 77, 123, 141, 153], i)
    else if p == 18 then Pick([20, 76, 122, 140, 152], i)
    else if p == 19 then Pick([if TakesStatement(s) then 13 else 121, 51, 96], i)
    else if p == 20 then Pick([17, 73, 116, 136, 149, 157, 163, 167, 169, 172, 174], i)
    else if p == 21 then Pick([17, 73, 116, 136, 149, 157, 163, 167, 170], i)
    else if p == 22 then Pick([18, 74, 117, 137, 150, 158, 164], i)
    else if p == 23 then Pick([19, 75, 118, 138, 151, 159, 165, 168, 171, 173], i)
    else if p == 24 then 119
    else if p == 25 then Pick([120, 139], i)
    else if p == 26 then 160
    else p
  }

  function AtExpression(s: nat, p: nat, i: nat): nat
    requires i > 0
  {
    var e := if AfterExpression(s).Some? then AfterExpression(s).value else 0;
    if p <= 31 then Pick([e, p + 25, p + 70], i)
    else if p <= 34 then Pick([p - 10, p + 46], i)
    else if p <= 42 then Pick([e, p + 22, p + 67], i)
    else if p == 43 then Pick([25, 81, 124, 142, 154], i)
    else if p == 44 then Pick([e, 65, 110], i)
    else if p == 45 then Pick([e, 66, 111, 134], i)
    else if p == 46 then Pick([e, 67, 112], i)
    else if p == 47 then Pick([25, 82, 125], i)
    else if p == 48 then 26
    else if p == 49 then Named(s)
    else if p == 50 then Pick([25, 82, 125, 143, 155, 161], i)
    else if p == 51 then Pick([28, 86, 128], i)
    else if p == 52 then Pick([if TakesStatement(s) then 11 else 70, 45, 93], i)
    else if p == 53 then Pick([Named(s), 85, 127, 145], i)
    else Pick([e, 68, 113, 135, 148], i)
  }

  function Named(s: nat): nat {
    if AfterIdentifier(s).Some? then AfterIdentifier(s).value else 0
  }

  function AtList(s: nat, p: nat, i: nat): nat
    requires i > 0 && p > 54
  {
    if p <= 62 then p - 26
    else if p <= 65 then p - 25
    else if p == 66 then Pick([40, 90], i)
    else if p == 67 then Pick([39, 89], i)
    else if p == 68 then 87
    else if p == 70 then Pick([88, 129, 146], i)
    else if p == 71 then 88
    else if p == 72 then 46
    else if p == 74 then Pick([47, 94, 132], i)
    else if p == 75 then 47
    else if p == 76 then Pick([Named(s), 95, 133], i)
    else if p == 77 then 83
    else if p == 79 then Pick([Named(s), 126, 144], i)
    else if p == 80 then Named(s)
    else 37
  }

  // ----- Where phrases may stand -----

  predicate FollowsStatement(k: nat) {
    k == EOF || k == CLOSE_BRACE || StartsStatement(k)
  }

  predicate StartsStatement(k: nat) {
    OpensOperand(k) || (!IsPhrase(k) && FirstOfStatement(k).Some?)
  }

  predicate FollowsList(s: nat, k: nat) {
    if s == 0 then k == EOF else k == CLOSE_BRACE || (s == 4 && k == EOF)
  }

  /** Tokens that end an operand. */
  predicate EndsOperands(k: nat) {
    k == SEMICOLON || k == CLOSE || k == CLOSE_BRACE || k == EQUALS || k == CLOSE_BRACKET || k == COLON || k == COMMA
  }

  predicate FollowsExpression(s: nat, k: nat) {
    Continues(k) ||
    if s == 25 then k == CLOSE else if TakesStatement(s) then k == SEMICOLON || k == EQUALS else EndsOperands(k)
  }

  /** Phrase `x` may stand in state `s` before a token of kind `k`. */
  predicate Admits(s: nat, x: nat, k: nat) {
    if x == STATEMENTS then AfterStatements(s).Some? && FollowsList(s, k)
    else if x == STATEMENT || x == WHILE_STATEMENT || x == FOR_STATEMENT || x == CONST_DECLARATION then
      TakesStatement(s) && FollowsStatement(k)
    else if x == IF_STATEMENT then (TakesStatement(s) || s == 167) && FollowsStatement(k)
    else if x == LET_DECLARATION then (TakesStatement(s) && FollowsStatement(k)) || (s == 75 && OpensOperand(k))
    else if x == ASSIGNMENT then
      ((TakesStatement(s) || s == 75) && k == SEMICOLON) || (s == 151 && k == CLOSE)
    else if x == FOR_INITIALISER then s == 75 && OpensOperand(k)
    else if x == FOR_FINALISER then s == 151 && k == CLOSE
    else if x == EXPRESSION then TakesOperand(s) && FollowsExpression(s, k)
    else AdmitsPart(s, x, k)
  }

  predicate AdmitsPart(s: nat, x: nat, k: nat) {
    if x == CONSTANTS then TakesOperand(s) && (Continues(k) || EndsOperands(k))
    else if x == QUOTED_STRING then (TakesOperand(s) || s == 39 || s == 40) && (Continues(k) || EndsOperands(k))
    else if x == IDENTIFIER then AfterIdentifier(s).Some? && (Continues(k) || EndsOperands(k) || k == OPEN)
    else if x == EXPRESSIONS then TakesOperands(s, k)
    else if x == NONEMPTY_EXPRESSIONS then TakesOperands(s, k) || (s == 129 && (k == CLOSE || k == CLOSE_BRACKET))
    else if x == PAIRS then (s == 11 || s == 70) && k == CLOSE_BRACE
    else if x == NONEMPTY_PAIRS then (s == 11 || s == 70 || s == 94) && k == CLOSE_BRACE
    else if x == PAIR then (s == 11 || s == 70 || s == 94) && (k == CLOSE_BRACE || k == COMMA)
    else if x == IDENTIFIERS then (s == 25 || s == 91) && k == CLOSE
    else if x == NONEMPTY_IDENTIFIERS then (s == 25 || s == 91 || s == 126) && k == CLOSE
    else false
  }

  predicate TakesOperands(s: nat, k: nat) {
    if s == 28 then k == CLOSE_BRACKET else (s == 85 || s == 143) && k == CLOSE
  }

  // ----- One part -----

  /** How tightly an expression begun in `s` is held on to from the left. */
  function HoldAt(s: nat): int {
    if AfterExpression(s).Some? && Completes(AfterExpression(s).value) then Hold(AfterExpression(s).value) else -1
  }

  predicate BeginsOperand(x: nat) {
    x == EXPRESSION || x == CONSTANTS || x == QUOTED_STRING || x == IDENTIFIER
  }

  /** The kinds of token that may stand behind part `j` of `p`, if `k` stands behind all. */
  predicate MayStandBehind(p: nat, j: nat, k: nat, k': nat)
    requires j < |ProductionAt(p).rhs|
  {
    var rhs := ProductionAt(p).rhs;
    if j + 1 == |rhs| then k' == k
    else if !IsPhrase(rhs[j + 1]) then k' == rhs[j + 1]
    else (p == 4 ==> FollowsStatement(k')) && (BeginsOperand(rhs[j + 1]) ==> OpensOperand(k'))
  }

  /** A phrase in its place is admitted there, and leads to the next place. */
  ghost predicate PhraseGoes(s: nat, p: nat, j: nat, k': nat)
    requires j < |ProductionAt(p).rhs|
  {
    var u, x := At(s, p, j), ProductionAt(p).rhs[j];
    Admits(u, x, k') && Next(u, x) == Some(At(s, p, j + 1))
  }

  /** So does a token; one that goes on with an expression does if it binds tighter than the expression is held. */
  ghost predicate TokenGoes(s: nat, p: nat, j: nat)
    requires j < |ProductionAt(p).rhs|
  {
    var u, x := At(s, p, j), ProductionAt(p).rhs[j];
    && WholeDefault(u) == None
    && Next(u, x) == if j == 1 && IsContinued(p) && Tightness(Continuation(p)) <= HoldAt(s) then None
                     else Some(At(s, p, j + 1))
  }

  ghost predicate PartGoes(s: nat, p: nat, j: nat, k': nat)
    requires j < |ProductionAt(p).rhs|
  {
    if IsPhrase(ProductionAt(p).rhs[j]) then PhraseGoes(s, p, j, k') else TokenGoes(s, p, j)
  }

  predicate IsPart(s: nat, p: nat, j: nat, k: nat, k': nat) {
    && 1 < p < 82 && Admits(s, ProductionAt(p).lhs, k) && j < |ProductionAt(p).rhs|
    && (IsPhrase(ProductionAt(p).rhs[j]) ==> MayStandBehind(p, j, k, k'))
  }

  /** Where a symbol leads that does not begin a phrase. */
  function Then(s: nat, x: nat): Option<nat> {
    if x == EXPRESSION then AfterExpression(s)
    else if x == IDENTIFIER then AfterIdentifier(s)
    else if x == STATEMENTS then AfterStatements(s)
    else if IsPhrase(x) then AfterPhrase(s, x)
    else AfterMark(s, x)
  }

  lemma ThenIsNext(s: nat, x: nat)
    requires Then(s, x).Some?
    ensures Next(s, x) == Then(s, x)
  {
    if AfterPhrase(s, x).Some? { PhraseIsNext(s, x); }
    if AfterMark(s, x).Some? { MarkIsNext(s, x); }
    hide AfterPhrase, AfterMark, AfterExpression, AfterIdentifier, AfterStatements, Continues, EndsExpression;
    hide FirstOfStatement, FirstOfOperand, TakesStatement, TakesOperand;
  }

  lemma PhraseIsNext(s: nat, x: nat)
    requires AfterPhrase(s, x).Some?
    ensures IsPhrase(x) && Next(s, x) == AfterPhrase(s, x)
  {
    hide AfterMark, AfterExpression, AfterStatements, AfterIdentifier, Behind, TakesName;
  }

  lemma MarkIsNext(s: nat, x: nat)
    requires AfterMark(s, x).Some?
    ensures !IsPhrase(x) && Next(s, x) == AfterMark(s, x)
  {
    hide AfterPhrase, AfterExpression, AfterStatements, AfterIdentifier, Behind, TakesName;
  }

  lemma StatementBegins(s: nat, x: nat)
    requires TakesStatement(s) && FirstOfStatement(x).Some?
    ensures Next(s, x) == FirstOfStatement(x)
  {
    hide AfterMark, AfterPhrase, AfterExpression, AfterStatements, AfterIdentifier, Behind, TakesName;
  }

  lemma OperandBegins(s: nat, x: nat)
    requires TakesOperand(s) && FirstOfOperand(x).Some? && (x == OPEN_BRACE ==> !TakesStatement(s))
    ensures Next(s, x) == FirstOfOperand(x)
  {
    hide AfterMark, AfterPhrase, AfterExpression, AfterStatements, AfterIdentifier, Behind, TakesName;
  }

  predicate HasDefault(s: nat) {
    s == 41 || s == 46 || s == 83 || s == 132 || s == 144 || s == 160
  }

  lemma NoDefault(s: nat)
    requires !HasDefault(s)
    ensures WholeDefault(s) == None
  {
  }

  lemma StatementWalks()
    ensures Then(4, STATEMENTS) == Some(42) && Then(11, STATEMENTS) == Some(44) && Then(44, CLOSE_BRACE) == Some(92)
    ensures Then(12, SEMICOLON) == Some(49) && Then(13, SEMICOLON) == Some(50) && Then(14, EXPRESSION) == Some(69)
    ensures Then(69, SEMICOLON) == Some(114) && Then(15, SEMICOLON) == Some(71) && Then(16, SEMICOLON) == Some(72)
    ensures Admits(11, STATEMENTS, CLOSE_BRACE) && Admits(14, EXPRESSION, SEMICOLON)
  {
  }

  lemma FunctionWalk()
    ensures Then(8, IDENTIFIER) == Some(43) && Then(43, OPEN) == Some(91) && Then(91, IDENTIFIERS) == Some(130)
    ensures Then(130, CLOSE) == Some(147) && Then(147, OPEN_BRACE) == Some(156) && Then(156, STATEMENTS) == Some(162)
    ensures Then(162, CLOSE_BRACE) == Some(166)
    ensures Admits(8, IDENTIFIER, OPEN) && Admits(91, IDENTIFIERS, CLOSE) && Admits(156, STATEMENTS, CLOSE_BRACE)
  {
  }

  lemma DeclarationWalks()
    ensures Then(75, LET) == Some(21) && Then(21, IDENTIFIER) == Some(77) && Then(77, EQUALS) == Some(123)
    ensures Then(123, EXPRESSION) == Some(141) && Then(141, SEMICOLON) == Some(153)
    ensures Then(20, IDENTIFIER) == Some(76) && Then(76, EQUALS) == Some(122) && Then(122, EXPRESSION) == Some(140)
    ensures Then(140, SEMICOLON) == Some(152)
    ensures Admits(20, IDENTIFIER, EQUALS) && Admits(21, IDENTIFIER, EQUALS)
    ensures Admits(122, EXPRESSION, SEMICOLON) && Admits(123, EXPRESSION, SEMICOLON)
  {
  }

  lemma IfWalk()
    ensures Then(167, IF) == Some(17) && Then(17, OPEN) == Some(73) && Then(73, EXPRESSION) == Some(116)
    ensures Then(116, CLOSE) == Some(136) && Then(136, OPEN_BRACE) == Some(149) && Then(149, STATEMENTS) == Some(157)
    ensures Then(157, CLOSE_BRACE) == Some(163) && Then(163, ELSE) == Some(167)
    ensures Admits(73, EXPRESSION, CLOSE) && Admits(149, STATEMENTS, CLOSE_BRACE)
  {
  }

  lemma ElseWalk()
    ensures Then(167, OPEN_BRACE) == Some(169) && Then(169, STATEMENTS) == Some(172)
    ensures Then(172, CLOSE_BRACE) == Some(174) && Then(167, IF_STATEMENT) == Some(170)
    ensures Admits(169, STATEMENTS, CLOSE_BRACE)
  {
  }

  lemma WhileWalk()
    ensures Then(18, OPEN) == Some(74) && Then(74, EXPRESSION) == Some(117) && Then(117, CLOSE) == Some(137)
    ensures Then(137, OPEN_BRACE) == Some(150) && Then(150, STATEMENTS) == Some(158)
    ensures Then(158, CLOSE_BRACE) == Some(164)
    ensures Admits(74, EXPRESSION, CLOSE) && Admits(150, STATEMENTS, CLOSE_BRACE)
  {
  }

  lemma ForWalk()
    ensures Then(19, OPEN) == Some(75) && Then(75, FOR_INITIALISER) == Some(118) && Then(118, EXPRESSION) == Some(138)
    ensures Then(138, SEMICOLON) == Some(151) && Then(151, FOR_FINALISER) == Some(159)
    ensures Then(159, CLOSE) == Some(165) && Then(165, OPEN_BRACE) == Some(168) && Then(168, STATEMENTS) == Some(171)
    ensures Then(171, CLOSE_BRACE) == Some(173)
    ensures Admits(118, EXPRESSION, SEMICOLON) && Admits(151, FOR_FINALISER, CLOSE)
    ensures Admits(168, STATEMENTS, CLOSE_BRACE)
  {
  }

  // ----- Statements -----

  lemma StatementsGo(s: nat, p: nat, j: nat, k: nat, k': nat)
    requires IsPart(s, p, j, k, k') && p <= 10 && p != 8
    ensures PartGoes(s, p, j, k')
  {
    hide ExpressionProduction, ListProduction, Next, AtExpression, AtList, FirstOfOperand, WholeDefault, Then;
    var u, x := At(s, p, j), ProductionAt(p).rhs[j];
    if j == 0 { StatementBegins(u, x); }
    StatementWalks();
    if Then(u, x).Some? { ThenIsNext(u, x); }
    NoDefault(u);
  }

  lemma SimpleStatementsGo(s: nat, p: nat, j: nat, k: nat, k': nat)
    requires IsPart(s, p, j, k, k') && 11 <= p <= 16 && p != 13
    ensures PartGoes(s, p, j, k')
  {
    hide ExpressionProduction, ListProduction, Next, AtExpression, AtList, FirstOfOperand, WholeDefault, Then;
    var u, x := At(s, p, j), ProductionAt(p).rhs[j];
    if j == 0 { StatementBegins(u, x); }
    StatementWalks();
    if Then(u, x).Some? { ThenIsNext(u, x); }
    NoDefault(u);
  }

  /** Where compound statements may stand. */
  lemma CompoundBegins(s: nat, p: nat, k: nat)
    requires (p == 8 || 20 <= p <= 23) && Admits(s, ProductionAt(p).lhs, k)
    ensures (TakesStatement(s) || (p <= 21 && p != 8 && s == 167)) && FollowsStatement(k)
    ensures p == 21 ==> Admits(167, IF_STATEMENT, k)
  {
    hide ExpressionProduction, ListProduction, AfterStatements;
  }

  lemma FunctionGoes(s: nat, j: nat, k: nat, k': nat)
    requires IsPart(s, 8, j, k, k')
    ensures PartGoes(s, 8, j, k')
  {
    hide ExpressionProduction, ListProduction, Next, AtExpression, AtList, FirstOfOperand, WholeDefault, Then, Admits;
    var u, x := At(s, 8, j), ProductionAt(8).rhs[j];
    CompoundBegins(s, 8, k);
    if j == 0 { StatementBegins(u, x); }
    FunctionWalk();
    if Then(u, x).Some? { ThenIsNext(u, x); }
    NoDefault(u);
  }

  lemma DeclarationGoes(s: nat, p: nat, j: nat, k: nat, k': nat)
    requires IsPart(s, p, j, k, k') && 17 <= p <= 18
    ensures PartGoes(s, p, j, k')
  {
    hide ExpressionProduction, ListProduction, Next, AtExpression, AtList, FirstOfOperand, WholeDefault, Then;
    var u, x := At(s, p, j), ProductionAt(p).rhs[j];
    if j == 0 && s != 75 { StatementBegins(u, x); }
    DeclarationWalks();
    if Then(u, x).Some? { ThenIsNext(u, x); }
    NoDefault(u);
  }

  lemma IfGoes(s: nat, j: nat, k: nat, k': nat)
    requires IsPart(s, 20, j, k, k') && j <= 7
    ensures PartGoes(s, 20, j, k')
  {
    hide ExpressionProduction, ListProduction, Next, AtExpression, AtList, FirstOfOperand, WholeDefault, Then, Admits;
    var u, x := At(s, 20, j), ProductionAt(20).rhs[j];
    IfWalk();
    CompoundBegins(s, 20, k);
    if j == 0 && s != 167 { StatementBegins(u, x); }
    if Then(u, x).Some? { ThenIsNext(u, x); }
    NoDefault(u);
  }

  lemma ElseGoes(s: nat, j: nat, k: nat, k': nat)
    requires IsPart(s, 20, j, k, k') && j > 7
    ensures PartGoes(s, 20, j, k')
  {
    hide ExpressionProduction, ListProduction, Next, AtExpression, AtList, FirstOfOperand, WholeDefault, Then, Admits;
    var u, x := At(s, 20, j), ProductionAt(20).rhs[j];
    ElseWalk();
    if Then(u, x).Some? { ThenIsNext(u, x); }
    NoDefault(u);
  }

  lemma ElseIfGoes(s: nat, j: nat, k: nat, k': nat)
    requires IsPart(s, 21, j, k, k')
    ensures PartGoes(s, 21, j, k')
  {
    hide ExpressionProduction, ListProduction, Next, AtExpression, AtList, FirstOfOperand, WholeDefault, Then, Admits;
    var u, x := At(s, 21, j), ProductionAt(21).rhs[j];
    CompoundBegins(s, 21, k);
    if j == 0 && s != 167 { StatementBegins(u, x); }
    IfWalk();
    ElseWalk();
    if Then(u, x).Some? { ThenIsNext(u, x); }
    NoDefault(u);
  }

  lemma WhileGoes(s: nat, j: nat, k: nat, k': nat)
    requires IsPart(s, 22, j, k, k')
    ensures PartGoes(s, 22, j, k')
  {
    hide ExpressionProduction, ListProduction, Next, AtExpression, AtList, FirstOfOperand, WholeDefault, Then, Admits;
    var u, x := At(s, 22, j), ProductionAt(22).rhs[j];
    CompoundBegins(s, 22, k);
    if j == 0 { StatementBegins(u, x); }
    WhileWalk();
    if Then(u, x).Some? { ThenIsNext(u, x); }
    NoDefault(u);
  }

  lemma InitialiserStands(k: nat)
    requires OpensOperand(k)
    ensures Admits(75, FOR_INITIALISER, k)
  {
  }

  lemma ForHeadGoes(s: nat, j: nat, k: nat, k': nat)
    requires IsPart(s, 23, j, k, k') && j <= 4
    ensures PartGoes(s, 23, j, k')
  {
    hide ExpressionProduction, ListProduction, Next, AtExpression, AtList, FirstOfOperand, WholeDefault, Then, Admits;
    var u, x := At(s, 23, j), ProductionAt(23).rhs[j];
    ForWalk();
    CompoundBegins(s, 23, k);
    if j == 0 { StatementBegins(u, x); }
    if j == 2 { InitialiserStands(k'); }
    if Then(u, x).Some? { ThenIsNext(u, x); }
    NoDefault(u);
  }

  lemma ForBodyGoes(s: nat, j: nat, k: nat, k': nat)
    requires IsPart(s, 23, j, k, k') && j > 4
    ensures PartGoes(s, 23, j, k')
  {
    hide ExpressionProduction, ListProduction, Next, AtExpression, AtList, FirstOfOperand, WholeDefault, Then, Admits;
    var u, x := At(s, 23, j), ProductionAt(23).rhs[j];
    ForWalk();
    if Then(u, x).Some? { ThenIsNext(u, x); }
    NoDefault(u);
  }

  lemma ForPartGoes(s: nat, p: nat, j: nat, k: nat, k': nat)
    requires IsPart(s, p, j, k, k') && (24 <= p <= 26 || p == 19 || p == 13)
    ensures PartGoes(s, p, j, k')
  {
    hide ExpressionProduction, ListProduction, Next, AtExpression, AtList, FirstOfOperand, WholeDefault;
    var u, x := At(s, p, j), ProductionAt(p).rhs[j];
    ThenIsNext(u, x);
    NoDefault(u);
  }

  // ----- Expressions -----

  lemma ParenthesesWalk()
    ensures Then(25, IDENTIFIERS) == Some(81) && Then(81, CLOSE) == Some(124) && Then(124, ARROW) == Some(142)
    ensures Then(142, EXPRESSION) == Some(154) && Then(25, EXPRESSION) == Some(82) && Then(82, CLOSE) == Some(125)
    ensures Then(125, OPEN) == Some(143) && Then(143, EXPRESSIONS) == Some(155) && Then(155, CLOSE) == Some(161)
    ensures Admits(25, IDENTIFIERS, CLOSE) && Admits(25, EXPRESSION, CLOSE) && Admits(143, EXPRESSIONS, CLOSE)
  {
  }

  lemma ExpressionWalks()
    ensures Then(28, EXPRESSIONS) == Some(86) && Then(86, CLOSE_BRACKET) == Some(128)
    ensures Then(11, PAIRS) == Some(45) && Then(70, PAIRS) == Some(45) && Then(45, CLOSE_BRACE) == Some(93)
    ensures Then(27, OPEN) == Some(85) && Then(48, OPEN) == Some(85) && Then(84, OPEN) == Some(85)
    ensures Then(85, EXPRESSIONS) == Some(127) && Then(127, CLOSE) == Some(145)
    ensures Admits(28, EXPRESSIONS, CLOSE_BRACKET) && Admits(11, PAIRS, CLOSE_BRACE) && Admits(70, PAIRS, CLOSE_BRACE)
    ensures Admits(85, EXPRESSIONS, CLOSE)
  {
  }

  lemma ContinuedWalks()
    ensures Then(65, EXPRESSION) == Some(110) && Then(66, EXPRESSION) == Some(111)
    ensures Then(111, CLOSE_BRACKET) == Some(134) && Then(67, IDENTIFIER) == Some(112)
    ensures Then(68, EXPRESSION) == Some(113) && Then(113, COLON) == Some(135) && Then(135, EXPRESSION) == Some(148)
    ensures Admits(66, EXPRESSION, CLOSE_BRACKET) && Admits(68, EXPRESSION, COLON)
  {
  }

  lemma ExpressionGoesOn(s: nat)
    requires TakesOperand(s)
    ensures AfterExpression(s).Some? && EndsExpression(AfterExpression(s).value)
    ensures !HasDefault(s) && !HasDefault(AfterExpression(s).value)
    ensures Next(s, EXPRESSION) == AfterExpression(s)
  {
    hide AfterMark, AfterPhrase, AfterIdentifier, AfterStatements;
  }

  /** What goes on with an expression is shifted behind it if it binds tighter than the expression is held. */
  lemma ContinuesHere(s: nat, k: nat)
    requires TakesOperand(s) && Continues(k)
    ensures AfterExpression(s).Some?
    ensures Next(AfterExpression(s).value, k) == if Tightness(k) <= HoldAt(s) then None else Some(Behind(k))
  {
    ExpressionGoesOn(s);
    hide AfterExpression, EndsExpression, TakesOperand, Tightness, Hold, Completes, Behind, AfterMark;
    var u := AfterExpression(s).value;
    assert Next(u, k) == if Completes(u) && Tightness(k) <= Hold(u) then None else Some(Behind(k));
  }

  predicate IsOperation(p: nat) {
    27 <= p <= 31 || 35 <= p <= 42
  }

  lemma OperationGoes(s: nat, p: nat, j: nat, k: nat, k': nat)
    requires IsPart(s, p, j, k, k') && IsOperation(p)
    ensures PartGoes(s, p, j, k')
  {
    hide StatementProduction, ListProduction, Next, AtStatement, AtList, WholeDefault, AfterMark, AfterPhrase;
    var u, x := At(s, p, j), ProductionAt(p).rhs[j];
    ExpressionGoesOn(s);
    if j == 1 { ContinuesHere(s, x); }
    if j == 2 { ThenIsNext(u, x); }
    NoDefault(u);
    hide Tightness, HoldAt;
  }

  lemma PrefixGoes(s: nat, p: nat, j: nat, k: nat, k': nat)
    requires IsPart(s, p, j, k, k') && 32 <= p <= 34
    ensures PartGoes(s, p, j, k')
  {
    hide StatementProduction, ListProduction, Next, AtStatement, AtList, WholeDefault, AfterMark, AfterPhrase;
    var u, x := At(s, p, j), ProductionAt(p).rhs[j];
    if j == 0 { OperandBegins(u, x); } else { ThenIsNext(u, x); }
    NoDefault(u);
  }

  lemma ContinuedGoes(s: nat, p: nat, j: nat, k: nat, k': nat)
    requires IsPart(s, p, j, k, k') && 44 <= p <= 46
    ensures PartGoes(s, p, j, k')
  {
    hide StatementProduction, ListProduction, Next, AtStatement, AtList, WholeDefault, AfterMark, AfterPhrase, Then;
    hide HoldAt, Completes;
    var u, x := At(s, p, j), ProductionAt(p).rhs[j];
    ExpressionGoesOn(s);
    ContinuedWalks();
    if j == 1 { ContinuesHere(s, x); } else if Then(u, x).Some? { ThenIsNext(u, x); }
    NoDefault(u);
  }

  lemma ConditionalGoes(s: nat, j: nat, k: nat, k': nat)
    requires IsPart(s, 54, j, k, k')
    ensures PartGoes(s, 54, j, k')
  {
    hide StatementProduction, ListProduction, Next, AtStatement, AtList, WholeDefault, AfterMark, AfterPhrase, Then;
    hide HoldAt, Completes;
    var u, x := At(s, 54, j), ProductionAt(54).rhs[j];
    ExpressionGoesOn(s);
    ContinuedWalks();
    if j == 1 { ContinuesHere(s, x); } else if Then(u, x).Some? { ThenIsNext(u, x); }
    NoDefault(u);
  }

  lemma ParenthesesGo(s: nat, p: nat, j: nat, k: nat, k': nat)
    requires IsPart(s, p, j, k, k') && (p == 43 || p == 47 || p == 50)
    ensures PartGoes(s, p, j, k')
  {
    hide StatementProduction, ListProduction, Next, AtStatement, AtList, WholeDefault, AfterMark, AfterPhrase, Then;
    var u, x := At(s, p, j), ProductionAt(p).rhs[j];
    if j == 0 { OperandBegins(u, x); }
    ParenthesesWalk();
    if Then(u, x).Some? { ThenIsNext(u, x); }
    NoDefault(u);
  }

  lemma OneOperandGoes(s: nat, p: nat, k: nat, k': nat)
    requires IsPart(s, p, 0, k, k') && (p == 48 || p == 49)
    ensures PartGoes(s, p, 0, k')
  {
    hide StatementProduction, ListProduction, Next, AtStatement, AtList, WholeDefault, AfterMark, AfterPhrase, Then;
    if p == 49 { NameGoesOn(s); } else { OperandBegins(s, CONSTANTS); }
    NoDefault(s);
  }

  lemma BracketsGo(s: nat, p: nat, j: nat, k: nat, k': nat)
    requires IsPart(s, p, j, k, k') && 51 <= p <= 52
    ensures PartGoes(s, p, j, k')
  {
    hide StatementProduction, ListProduction, Next, AtStatement, AtList, WholeDefault, AfterMark, AfterPhrase, Then;
    var u, x := At(s, p, j), ProductionAt(p).rhs[j];
    if j == 0 {
      if p == 52 && TakesStatement(s) { StatementBegins(u, x); } else { OperandBegins(u, x); }
    }
    ExpressionWalks();
    if j > 0 && Then(u, x).Some? { ThenIsNext(u, x); }
    NoDefault(u);
  }

  lemma CallGoes(s: nat, j: nat, k: nat, k': nat)
    requires IsPart(s, 53, j, k, k')
    ensures PartGoes(s, 53, j, k')
  {
    hide StatementProduction, ListProduction, Next, AtStatement, AtList, WholeDefault, AfterMark, AfterPhrase, Then;
    var u, x := At(s, 53, j), ProductionAt(53).rhs[j];
    NameGoesOn(s);
    ExpressionWalks();
    if j > 0 && Then(u, x).Some? { ThenIsNext(u, x); }
    NoDefault(u);
  }

  lemma NameGoesOn(s: nat)
    ensures Next(s, IDENTIFIER) == AfterIdentifier(s)
  {
    hide AfterMark, AfterPhrase, AfterExpression, AfterStatements;
  }

  // ----- Lists -----

  lemma ConstantsGo(s: nat, p: nat, j: nat, k: nat, k': nat)
    requires IsPart(s, p, j, k, k') && 55 <= p <= 67
    ensures PartGoes(s, p, j, k')
  {
    hide StatementProduction, ExpressionProduction, Next, AtStatement, AtExpression, WholeDefault;
    var u, x := At(s, p, j), ProductionAt(p).rhs[j];
    if j == 0 && TakesOperand(s) { OperandBegins(u, x); } else { ThenIsNext(u, x); }
    NoDefault(u);
  }

  lemma OperandListsGo(s: nat, p: nat, j: nat, k: nat, k': nat)
    requires IsPart(s, p, j, k, k') && 68 <= p <= 71
    ensures PartGoes(s, p, j, k')
  {
    hide StatementProduction, ExpressionProduction, Next, AtStatement, AtExpression, WholeDefault;
    var u, x := At(s, p, j), ProductionAt(p).rhs[j];
    ThenIsNext(u, x);
    NoDefault(u);
  }

  lemma PairListsGo(s: nat, p: nat, j: nat, k: nat, k': nat)
    requires IsPart(s, p, j, k, k') && 72 <= p <= 76
    ensures PartGoes(s, p, j, k')
  {
    hide StatementProduction, ExpressionProduction, Next, AtStatement, AtExpression, WholeDefault;
    var u, x := At(s, p, j), ProductionAt(p).rhs[j];
    ThenIsNext(u, x);
    NoDefault(u);
  }

  lemma NamesGo(s: nat, p: nat, j: nat, k: nat, k': nat)
    requires IsPart(s, p, j, k, k') && 77 <= p <= 80
    ensures PartGoes(s, p, j, k')
  {
    hide StatementProduction, ExpressionProduction, Next, AtStatement, AtExpression, WholeDefault;
    var u, x := At(s, p, j), ProductionAt(p).rhs[j];
    ThenIsNext(u, x);
    NoDefault(u);
  }

  lemma NameGoes(s: nat, j: nat, k: nat, k': nat)
    requires IsPart(s, 81, j, k, k')
    ensures PartGoes(s, 81, j, k')
  {
    hide StatementProduction, ExpressionProduction, AtStatement, AtExpression, WholeDefault, AfterMark, AfterPhrase;
    NoDefault(s);
  }

  lemma OneOperand(p: nat)
    requires p == 48 || p == 49
    ensures |ProductionAt(p).rhs| == 1
  {
  }

  /** Each part of a production in its place. */
  lemma PartsGo(s: nat, p: nat, j: nat, k: nat, k': nat)
    requires IsPart(s, p, j, k, k')
    ensures PartGoes(s, p, j, k')
  {
    assert 1 < p < 82 && j < |ProductionAt(p).rhs|;
    if p == 48 || p == 49 { OneOperand(p); }
    hide IsPart, PartGoes, ProductionAt;
    if p == 13 || p == 19 || 24 <= p <= 26 { ForPartGoes(s, p, j, k, k'); }
    else if p == 8 { FunctionGoes(s, j, k, k'); }
    else if p <= 10 { StatementsGo(s, p, j, k, k'); }
    else if p <= 16 { SimpleStatementsGo(s, p, j, k, k'); }
    else if p <= 18 { DeclarationGoes(s, p, j, k, k'); }
    else if p == 20 {
      if j <= 7 { IfGoes(s, j, k, k'); } else { ElseGoes(s, j, k, k'); }
    }
    else if p == 21 { ElseIfGoes(s, j, k, k'); }
    else if p == 22 { WhileGoes(s, j, k, k'); }
    else if p == 23 {
      if j <= 4 { ForHeadGoes(s, j, k, k'); } else { ForBodyGoes(s, j, k, k'); }
    }
    else if IsOperation(p) { OperationGoes(s, p, j, k, k'); }
    else if 32 <= p <= 34 { PrefixGoes(s, p, j, k, k'); }
    else if 44 <= p <= 46 { ContinuedGoes(s, p, j, k, k'); }
    else if p == 54 { ConditionalGoes(s, j, k, k'); }
    else if p == 43 || p == 47 || p == 50 { ParenthesesGo(s, p, j, k, k'); }
    else if p <= 49 { OneOperandGoes(s, p, k, k'); }
    else if p <= 52 { BracketsGo(s, p, j, k, k'); }
    else if p == 53 { CallGoes(s, j, k, k'); }
    else if p <= 67 { ConstantsGo(s, p, j, k, k'); }
    else if p <= 71 { OperandListsGo(s, p, j, k, k'); }
    else if p <= 76 { PairListsGo(s, p, j, k, k'); }
    else if p <= 80 { NamesGo(s, p, j, k, k'); }
    else { NameGoes(s, j, k, k'); }
  }
}
