/** The parser's whole table: what it does in each of its 175 states on each symbol, and that parsing with it
    is sound and ends.  A state stands for the production it is in and the place it has reached there.
 */
module WholeTable {
  import opened Options
  import opened Syntax
  import opened LRParser
  import opened Grammar
  import opened Precedence

  // ----- What the states are -----

  /** A production that a state is in, and how many of its symbols the state has behind it. */
  datatype Item = Item(production: nat, dot: nat)

  function ItemAt(s: nat): Item {
    if s <= 25 then FirstItem(s)
    else if s <= 50 then SecondItem(s)
    else if s <= 96 then ThirdItem(s)
    else if s <= 135 then FourthItem(s)
    else LastItem(s)
  }

  function FirstItem(s: nat): Item {
    if s == 2 then Item(1, 1)
    else if 3 <= s <= 16 then Item(s, 1)
    else if s == 17 then Item(20, 1)
    else if s == 18 then Item(22, 1)
    else if s == 19 then Item(23, 1)
    else if s == 20 then Item(18, 1)
    else if s == 21 then Item(17, 1)
    else if 22 <= s <= 24 then Item(s + 10, 1)
    else if s == 25 then Item(47, 1)
    else Item(0, 0)
  }

  function SecondItem(s: nat): Item
    requires 25 < s <= 50
  {
    if s == 26 then Item(48, 1)
    else if s == 27 || s == 48 then Item(49, 1)
    else if s == 28 then Item(51, 1)
    else if 29 <= s <= 36 then Item(s + 26, 1)
    else if s == 37 then Item(81, 1)
    else if 38 <= s <= 40 then Item(s + 25, 1)
    else if s == 41 then Item(1, 2)
    else if s == 42 then Item(4, 2)
    else if s == 43 then Item(8, 2)
    else if s == 44 then Item(11, 2)
    else if s == 45 then Item(52, 2)
    else if s == 46 then Item(72, 1)
    else if s == 47 then Item(75, 1)
    else if s == 49 then Item(12, 2)
    else Item(13, 2)
  }

  function ThirdItem(s: nat): Item
    requires 50 < s <= 96
  {
    if s == 51 then Item(19, 2)
    else if s <= 56 then Item(s - 25, 2)
    else if s <= 64 then Item(s - 22, 2)
    else if s <= 67 then Item(s - 21, 2)
    else if s == 68 then Item(54, 2)
    else if s == 69 then Item(14, 2)
    else if s == 70 then Item(52, 1)
    else if s <= 72 then Item(s - 56, 2)
    else if s == 73 then Item(20, 2)
    else if s <= 75 then Item(s - 52, 2)
    else if s == 76 then Item(18, 2)
    else if s == 77 then Item(17, 2)
    else if s <= 80 then Item(s - 46, 2)
    else if s == 81 then Item(43, 2)
    else if s == 82 then Item(47, 2)
    else if s == 83 then Item(77, 1)
    else if s == 84 then Item(49, 1)
    else if s == 85 then Item(53, 2)
    else if s == 86 then Item(51, 2)
    else if s == 87 then Item(68, 1)
    else if s == 88 then Item(71, 1)
    else if s == 89 then Item(67, 2)
    else if s == 90 then Item(66, 2)
    else if s == 91 then Item(8, 3)
    else if s == 92 then Item(11, 3)
    else if s == 93 then Item(52, 3)
    else if s == 94 then Item(74, 2)
    else if s == 95 then Item(76, 2)
    else Item(19, 3)
  }

  function FourthItem(s: nat): Item
    requires 96 < s <= 135
  {
    if s <= 101 then Item(s - 70, 3)
    else if s <= 109 then Item(s - 67, 3)
    else if s <= 112 then Item(s - 66, 3)
    else if s == 113 then Item(54, 3)
    else if s == 114 then Item(14, 3)
    else if s == 115 then Item(76, 1)
    else if s == 116 then Item(20, 3)
    else if s <= 118 then Item(s - 95, 3)
    else if s == 119 then Item(24, 1)
    else if s == 120 then Item(25, 1)
    else if s == 121 then Item(19, 1)
    else if s == 122 then Item(18, 3)
    else if s == 123 then Item(17, 3)
    else if s == 124 then Item(43, 3)
    else if s == 125 then Item(47, 3)
    else if s == 126 then Item(79, 2)
    else if s == 127 then Item(53, 3)
    else if s == 128 then Item(51, 3)
    else if s == 129 then Item(70, 2)
    else if s == 130 then Item(8, 4)
    else if s == 131 then Item(80, 1)
    else if s == 132 then Item(74, 3)
    else if s == 133 then Item(76, 3)
    else if s == 134 then Item(45, 4)
    else Item(54, 4)
  }

  function LastItem(s: nat): Item
    requires 135 < s
  {
    if s == 136 then Item(20, 4)
    else if s <= 138 then Item(s - 115, 4)
    else if s == 139 then Item(25, 2)
    else if s == 140 then Item(18, 4)
    else if s == 141 then Item(17, 4)
    else if s == 142 then Item(43, 4)
    else if s == 143 then Item(50, 4)
    else if s == 144 then Item(79, 3)
    else if s == 145 then Item(53, 4)
    else if s == 146 then Item(70, 3)
    else if s == 147 then Item(8, 5)
    else if s == 148 then Item(54, 5)
    else if s == 149 then Item(20, 5)
    else if s <= 151 then Item(s - 128, 5)
    else if s == 152 then Item(18, 5)
    else if s == 153 then Item(17, 5)
    else if s == 154 then Item(43, 5)
    else if s == 155 then Item(50, 5)
    else if s == 156 then Item(8, 6)
    else if s == 157 then Item(20, 6)
    else if s <= 159 then Item(s - 136, 6)
    else if s == 160 then Item(26, 1)
    else if s == 161 then Item(50, 6)
    else if s == 162 then Item(8, 7)
    else if s == 163 then Item(20, 7)
    else if s <= 165 then Item(s - 142, 7)
    else if s == 166 then Item(8, 8)
    else if s == 167 then Item(20, 8)
    else if s == 168 then Item(23, 8)
    else if s == 169 then Item(20, 9)
    else if s == 170 then Item(21, 9)
    else if s == 171 then Item(23, 9)
    else if s == 172 then Item(20, 10)
    else if s == 173 then Item(23, 10)
    else if s == 174 then Item(20, 11)
    else Item(0, 0)
  }

  /** Where a statement, an operand or an expression's continuation may stand next. */
  predicate TakesStatement(s: nat) {
    s == 0 || s == 4 || s == 11 || s == 149 || s == 150 || s == 156 || s == 168 || s == 169
  }

  predicate TakesOperand(s: nat) {
    TakesStatement(s) || s == 14 || 22 <= s <= 25 || s == 28 || 51 <= s <= 66 || s == 68 || 73 <= s <= 75 || s == 85 ||
    s == 95 || s == 118 || s == 122 || s == 123 || s == 129 || s == 135 || s == 142 || s == 143 || s == 151
  }

  predicate EndsExpression(s: nat) {
    Completes(s) || s == 13 || s == 69 || s == 82 || s == 88 || s == 96 || s == 111 || s == 113 || s == 116 ||
    s == 117 || s == 121 || s == 133 || s == 138 || s == 140 || s == 141
  }

  /** Whether the expression at the end of a state's symbols completes a larger one. */
  predicate Completes(s: nat) {
    78 <= s <= 80 || 97 <= s <= 110 || s == 148 || s == 154
  }

  // ----- Where the symbols lead -----

  /** The state after an infix operator. */
  function After(k: nat): nat
    requires IsInfix(k)
  {
    if k == QUESTION then 68 else if k <= 38 then k + 18 else k + 17
  }

  /** The operator of a state behind its right operand. */
  function OperatorOf(s: nat): nat
    requires 97 <= s <= 109
  {
    if s <= 101 then s - 63 else s - 62
  }

  function Behind(k: nat): nat
    requires Continues(k)
  {
    if IsInfix(k) then After(k) else if k == ARROW then 65 else if k == OPEN_BRACKET then 66 else 67
  }

  /** How tightly a state holds on to its expression. */
  function Hold(s: nat): nat
    requires Completes(s)
  {
    if 97 <= s <= 109 then Level(OperatorOf(s)) else if s <= 80 then PREFIX_LEVEL else 0
  }

  function FirstOfStatement(x: nat): Option<nat> {
    if x == SEMICOLON then Some(3)
    else if x == STATEMENT then Some(4)
    else if IF_STATEMENT <= x <= FOR_STATEMENT then Some(x - 3)
    else if x == FUNCTION then Some(8)
    else if x == CONST_DECLARATION || x == LET_DECLARATION then Some(x - 9)
    else if x == OPEN_BRACE then Some(11)
    else if x == ASSIGNMENT then Some(12)
    else if RETURN <= x <= CONTINUE then Some(x - 8)
    else if x == IF then Some(17)
    else if x == WHILE || x == FOR then Some(x - 12)
    else if x == CONST then Some(20)
    else if x == LET then Some(21)
    else None
  }

  function FirstOfOperand(x: nat): Option<nat> {
    if x == OPEN then Some(25)
    else if x == OPEN_BRACE then Some(70)
    else if x == PLUS then Some(23)
    else if x == MINUS then Some(22)
    else if x == NOT then Some(24)
    else if x == OPEN_BRACKET then Some(28)
    else if x == CONSTANTS then Some(26)
    else if NUMBER <= x <= INFINITY then Some(x - 28)
    else if x == QUOTED_STRING then Some(35)
    else if x == EMPTY_LIST then Some(36)
    else if EMPTY_STRING <= x <= ESCAPE then Some(x - 27)
    else None
  }

  function AfterExpression(s: nat): Option<nat> {
    if TakesStatement(s) then Some(13)
    else if s == 14 then Some(69)
    else if 22 <= s <= 24 then Some(s + 56)
    else if s == 25 then Some(82)
    else if s == 28 || s == 85 || s == 129 || s == 143 then Some(88)
    else if 51 <= s <= 66 then Some(s + 45)
    else if s == 68 then Some(113)
    else if s == 73 || s == 74 then Some(s + 43)
    else if s == 75 || s == 151 then Some(121)
    else if s == 95 then Some(133)
    else if s == 118 then Some(138)
    else if s == 122 || s == 123 then Some(s + 18)
    else if s == 135 then Some(148)
    else if s == 142 then Some(154)
    else None
  }

  predicate TakesName(s: nat) {
    TakesOperand(s) || s == 8 || s == 20 || s == 21 || s == 67 || s == 70 || s == 91 || s == 94 || s == 126
  }

  function AfterIdentifier(s: nat): Option<nat> {
    if s == 8 then Some(43)
    else if s == 11 then Some(48)
    else if s == 20 then Some(76)
    else if s == 21 then Some(77)
    else if s == 25 then Some(84)
    else if s == 67 then Some(112)
    else if s == 70 || s == 94 then Some(115)
    else if s == 91 || s == 126 then Some(131)
    else if TakesOperand(s) then Some(27)
    else None
  }

  function AfterStatements(s: nat): Option<nat> {
    if s == 0 then Some(2)
    else if s == 4 then Some(42)
    else if s == 11 then Some(44)
    else if s == 149 || s == 150 then Some(s + 8)
    else if s == 156 then Some(162)
    else if s == 168 || s == 169 then Some(s + 3)
    else None
  }

  /** Marks and words that stand inside a statement or an expression. */
  function AfterMark(s: nat, k: nat): Option<nat> {
    if k == EOF then if s == 2 then Some(41) else None
    else if k == SEMICOLON then
      if s == 12 then Some(49)
      else if s == 13 then Some(50)
      else if s == 15 || s == 16 then Some(s + 56)
      else if s == 69 then Some(114)
      else if s == 120 then Some(139)
      else if s == 138 then Some(151)
      else if s == 140 || s == 141 then Some(s + 12)
      else None
    else if k == OPEN then
      if 17 <= s <= 19 then Some(s + 56)
      else if s == 27 || s == 48 || s == 84 then Some(85)
      else if s == 43 then Some(91)
      else if s == 125 then Some(143)
      else None
    else if k == CLOSE then
      if s == 81 || s == 82 then Some(s + 43)
      else if s == 116 || s == 117 then Some(s + 20)
      else if s == 127 then Some(145)
      else if s == 130 then Some(147)
      else if s == 155 || s == 159 then Some(s + 6)
      else None
    else if k == OPEN_BRACE then
      if s == 136 || s == 137 then Some(s + 13)
      else if s == 147 then Some(156)
      else if s == 165 then Some(168)
      else if s == 167 then Some(169)
      else None
    else if k == CLOSE_BRACE then
      if s == 44 || s == 45 then Some(s + 48)
      else if s == 157 || s == 158 then Some(s + 6)
      else if s == 162 then Some(166)
      else if s == 171 || s == 172 then Some(s + 2)
      else None
    else AfterRareMark(s, k)
  }

  function AfterRareMark(s: nat, k: nat): Option<nat> {
    if k == EQUALS then
      if s == 13 || s == 121 then Some(51) else if s == 76 || s == 77 then Some(s + 46) else None
    else if k == ELSE then if s == 163 then Some(167) else None
    else if k == IF then if s == 167 then Some(17) else None
    else if k == LET then if s == 75 then Some(21) else None
    else if k == ARROW then if s == 124 then Some(142) else None
    else if k == CLOSE_BRACKET then if s == 86 then Some(128) else if s == 111 then Some(134) else None
    else if k == COLON then if s == 48 || s == 115 then Some(95) else if s == 113 then Some(135) else None
    else if k == COMMA then
      if s == 47 then Some(94) else if s == 84 || s == 131 then Some(126) else if s == 88 then Some(129) else None
    else if EMPTY_STRING <= k <= ESCAPE then if s == 39 || s == 40 then Some(k - 27) else None
    else None
  }

  /** Phrases that stand inside a statement or an expression. */
  function AfterPhrase(s: nat, x: nat): Option<nat> {
    if x == PROGRAM then if s == 0 then Some(1) else None
    else if x == IF_STATEMENT then if s == 167 then Some(170) else None
    else if x == IDENTIFIERS then if s == 25 then Some(81) else if s == 91 then Some(130) else None
    else if x == NONEMPTY_IDENTIFIERS then
      if s == 25 || s == 91 then Some(83) else if s == 126 then Some(144) else None
    else if x == LET_DECLARATION then if s == 75 then Some(119) else None
    else if x == ASSIGNMENT then if s == 75 then Some(120) else if s == 151 then Some(160) else None
    else if x == FOR_INITIALISER then if s == 75 then Some(118) else None
    else if x == FOR_FINALISER then if s == 151 then Some(159) else None
    else if x == QUOTED_STRING then if s == 39 then Some(89) else if s == 40 then Some(90) else None
    else if x == EXPRESSIONS then
      if s == 28 then Some(86) else if s == 85 then Some(127) else if s == 143 then Some(155) else None
    else if x == NONEMPTY_EXPRESSIONS then
      if s == 28 || s == 85 || s == 143 then Some(87) else if s == 129 then Some(146) else None
    else if x == PAIRS then if s == 11 || s == 70 then Some(45) else None
    else if x == NONEMPTY_PAIRS then if s == 11 || s == 70 then Some(46) else if s == 94 then Some(132) else None
    else if x == PAIR then if s == 11 || s == 70 || s == 94 then Some(47) else None
    else None
  }

  /** The state that a symbol leads to. */
  function Next(s: nat, x: nat): Option<nat> {
    if x == EXPRESSION then AfterExpression(s)
    else if x == IDENTIFIER then AfterIdentifier(s)
    else if x == NAME then if TakesName(s) then Some(37) else None
    else if x == STATEMENTS then AfterStatements(s)
    else if Continues(x) && EndsExpression(s) then
      if Completes(s) && Tightness(x) <= Hold(s) then None else Some(Behind(x))
    else if TakesStatement(s) && FirstOfStatement(x).Some? then FirstOfStatement(x)
    else if TakesOperand(s) && FirstOfOperand(x).Some? then FirstOfOperand(x)
    else if IsPhrase(x) then AfterPhrase(s, x)
    else AfterMark(s, x)
  }

  // ----- Reductions -----

  /** The empty phrase that may stand in a state. */
  function EmptyIn(s: nat): Option<nat> {
    if TakesStatement(s) then Some(2)
    else if s == 28 || s == 85 || s == 143 then Some(69)
    else if s == 70 then Some(73)
    else if s == 25 || s == 91 then Some(78)
    else None
  }

  /** The production a state reduces by, if any: no state has two. */
  function ReducesBy(s: nat): Option<nat> {
    var Item(p, n) := ItemAt(s);
    if p != 0 && n == |ProductionAt(p).rhs| then Some(p) else EmptyIn(s)
  }

  predicate OpensOperand(k: nat) {
    k == NAME || (!IsPhrase(k) && FirstOfOperand(k).Some?)
  }

  /** On which tokens state `s` reduces by `p`. */
  predicate Reduces(s: nat, p: nat, k: nat) {
    if p == 1 then k == END
    else if p == 2 then if s == 0 then k == EOF else k == CLOSE_BRACE || (s == 4 && k == EOF)
    else if p == 3 || p == 4 then k == EOF || k == CLOSE_BRACE
    else if p <= 18 || 20 <= p <= 23 then
      k == EOF || k == CLOSE_BRACE || OpensOperand(k) || (!IsPhrase(k) && FirstOfStatement(k).Some?)
    else if p == 19 then k == SEMICOLON || k == CLOSE
    else if p == 24 || p == 25 then OpensOperand(k)
    else if p == 26 || 77 <= p <= 80 then k == CLOSE
    else if p == 68 || p == 70 || p == 71 then k == CLOSE || k == CLOSE_BRACKET
    else if p == 69 then k == if s == 28 then CLOSE_BRACKET else CLOSE
    else if 72 <= p <= 75 then k == CLOSE_BRACE
    else if p == 76 then k == CLOSE_BRACE || k == COMMA
    else Continues(k) || EndsOperand(s, k)
  }

  /** Which other tokens end an operand. */
  predicate EndsOperand(s: nat, k: nat) {
    if s == 48 then k == SEMICOLON || k == EQUALS
    else if s == 84 then k == CLOSE
    else
      k == SEMICOLON || k == CLOSE || k == CLOSE_BRACE || k == EQUALS || k == CLOSE_BRACKET || k == COLON ||
      k == COMMA || (s == 37 && k == OPEN)
  }

  /** States that reduce without a look at the input. */
  function WholeDefault(s: nat): Option<nat> {
    if s == 41 || s == 46 || s == 83 || s == 132 || s == 144 || s == 160 then ReducesBy(s) else None
  }

  function WholeAction(s: nat, k: nat): Action {
    if !IsPhrase(k) && Next(s, k).Some? then Shift(Next(s, k).value)
    else if ReducesBy(s).Some? && Reduces(s, ReducesBy(s).value, k) then Reduce(ReducesBy(s).value)
    else Error
  }

  function WholeGoto(s: nat, x: nat): Option<nat> {
    if IsPhrase(x) then Next(s, x) else None
  }

  function Whole(number: string -> Number): Table<Value> {
    Table((s: nat, k: nat) => WholeAction(s, k),
          (s: nat) => WholeDefault(s),
          (s: nat, x: nat) => WholeGoto(s, x),
          Productions(),
          1,
          (k: Token) => Text(k.text),
          (p: nat, vs: seq<Value>, ls: seq<Loc>, last: Token) => ActAt(number, p, vs, last),
          Null)
  }

  // ----- The certificate -----

  function Prefix(s: seq<nat>, n: nat): seq<nat> {
    if n <= |s| then s[..n] else s
  }

  /** What a state has behind it. */
  function Known(s: nat): seq<nat> {
    if s == 0 then [BOTTOM]
    else if s == 1 then [BOTTOM, PROGRAM]
    else
      var Item(p, n) := ItemAt(s);
      (if p == 1 then [BOTTOM] else []) + Prefix(ProductionAt(p).rhs, n)
  }

  /** Whether a state may still push an empty phrase, or is one of the phrases that make a statement. */
  function WholePending(s: nat): nat {
    if EmptyIn(s).Some? || 5 <= s <= 7 || s == 9 || s == 10 then 1 else 0
  }

  /** The rank of a state's top symbol through unit reductions. */
  function WholeRank(s: nat): nat {
    if 38 <= s <= 40 then 5
    else if 29 <= s <= 37 then 4
    else if s == 26 || s == 27 || s == 48 || s == 84 then 3
    else if s == 47 || s == 88 || s == 131 || 5 <= s <= 7 || s == 9 || s == 10 || s == 49 || s == 50 ||
            s == 71 || s == 72 then 2
    else if EmptyIn(s).Some? || s == 3 || s == 46 || s == 83 || s == 87 || s == 119 || s == 160 then 1
    else 0
  }

  const WHOLE_PROOF := Certificate((s: nat) => Known(s), (s: nat) => WholePending(s), (s: nat) => WholeRank(s))

  // ----- What the states know -----

  lemma SuffixOfOne(s: seq<nat>, x: nat)
    ensures IsSuffix([x], s + [x])
  {
  }

  lemma SuffixOfTwo(s: seq<nat>, y: nat, x: nat)
    requires s != [] && s[|s| - 1] == y
    ensures IsSuffix([y, x], s + [x])
  {
    assert s == s[..|s| - 1] + [y];
  }

  /** Symbol `x` leads from one state to another by the item of the latter: it comes last there, and what
      comes before it, if anything, the former state has behind it. */
  ghost predicate Advances(s: nat, x: nat, s': nat) {
    var Item(p, n), Item(p', n') := ItemAt(s), ItemAt(s');
    && 0 < n' <= |ProductionAt(p').rhs| && ProductionAt(p').rhs[n' - 1] == x && x != BOTTOM && x != END
    && s' > 1 && p' != 1
    && (n' == 1 || (n' == n + 1 && s > 1 && p != 1 && n <= |ProductionAt(p).rhs| &&
                    ProductionAt(p).rhs[..n] == ProductionAt(p').rhs[..n]))
  }

  lemma AdvancingIsKnown(s: nat, x: nat, s': nat)
    requires Advances(s, x, s')
    ensures Known(s') == [x] || Known(s') == Known(s) + [x]
  {
    hide ItemAt, ProductionAt;
    var Item(p', n') := ItemAt(s');
    var rhs := ProductionAt(p').rhs;
    assert rhs[..n'] == rhs[..n' - 1] + [rhs[n' - 1]];
  }

  // Where the symbols stand in the productions.

  predicate Stands(x: nat, p: nat, n: nat) {
    n < |ProductionAt(p).rhs| && ProductionAt(p).rhs[n] == x
  }

  lemma BeginningsOfStatements()
    ensures Stands(SEMICOLON, 3, 0) && Stands(STATEMENT, 4, 0) && Stands(IF_STATEMENT, 5, 0)
    ensures Stands(WHILE_STATEMENT, 6, 0) && Stands(FOR_STATEMENT, 7, 0) && Stands(FUNCTION, 8, 0)
    ensures Stands(CONST_DECLARATION, 9, 0) && Stands(LET_DECLARATION, 10, 0) && Stands(OPEN_BRACE, 11, 0)
    ensures Stands(ASSIGNMENT, 12, 0)
  {
    hide ExpressionProduction, ListProduction;
  }

  lemma FirstWords()
    ensures Stands(RETURN, 14, 0) && Stands(BREAK, 15, 0) && Stands(CONTINUE, 16, 0)
    ensures Stands(LET, 17, 0) && Stands(CONST, 18, 0) && Stands(IF, 20, 0) && Stands(WHILE, 22, 0)
    ensures Stands(FOR, 23, 0)
  {
    hide ExpressionProduction, ListProduction;
  }

  lemma BeginningsOfOperands()
    ensures Stands(OPEN, 47, 0) && Stands(OPEN_BRACE, 52, 0) && Stands(MINUS, 32, 0) && Stands(PLUS, 33, 0)
    ensures Stands(NOT, 34, 0) && Stands(OPEN_BRACKET, 51, 0) && Stands(CONSTANTS, 48, 0)
    ensures Stands(57, 55, 0) && Stands(58, 56, 0) && Stands(59, 57, 0)
    ensures Stands(60, 58, 0) && Stands(61, 59, 0) && Stands(62, 60, 0)
    ensures Stands(QUOTED_STRING, 61, 0) && Stands(EMPTY_LIST, 62, 0) && Stands(EMPTY_STRING, 63, 0)
    ensures Stands(PLAIN, 64, 0) && Stands(ESCAPE, 65, 0)
  {
  }

  lemma PlacesOfOperands()
    ensures Stands(EXPRESSION, 32, 1) && Stands(EXPRESSION, 33, 1) && Stands(EXPRESSION, 34, 1)
    ensures Stands(EXPRESSION, 43, 4) && Stands(EXPRESSION, 44, 2) && Stands(EXPRESSION, 45, 2)
    ensures Stands(EXPRESSION, 47, 1) && Stands(EXPRESSION, 54, 2) && Stands(EXPRESSION, 54, 4)
  {
    hide StatementProduction, ListProduction;
  }

  lemma PlacesOfExpressions()
    ensures Stands(EXPRESSION, 13, 0) && Stands(EXPRESSION, 14, 1) && Stands(EXPRESSION, 17, 3)
    ensures Stands(EXPRESSION, 18, 3) && Stands(EXPRESSION, 19, 0) && Stands(EXPRESSION, 19, 2)
  {
    hide ExpressionProduction, ListProduction;
  }

  lemma PlacesOfConditions()
    ensures Stands(EXPRESSION, 20, 2) && Stands(EXPRESSION, 22, 2) && Stands(EXPRESSION, 23, 3)
    ensures Stands(EXPRESSION, 71, 0) && Stands(EXPRESSION, 76, 2)
  {
    hide ExpressionProduction;
  }

  lemma FirstAdvances(s: nat, x: nat)
    ensures FirstOfStatement(x).Some? ==> Advances(s, x, FirstOfStatement(x).value)
    ensures FirstOfOperand(x).Some? ==> Advances(s, x, FirstOfOperand(x).value)
  {
    hide ProductionAt;
    BeginningsOfStatements();
    FirstWords();
    BeginningsOfOperands();
  }

  lemma InfixOperands(p: nat)
    requires 27 <= p <= 31 || 35 <= p <= 42
    ensures Stands(EXPRESSION, p, 0) && Stands(if p <= 31 then p + 7 else p + 5, p, 1) && Stands(EXPRESSION, p, 2)
  {
  }

  lemma OperandAdvances(s: nat)
    requires 22 <= s <= 24 || 52 <= s <= 66 || s == 68 || s == 135
    ensures AfterExpression(s).Some? && Advances(s, EXPRESSION, AfterExpression(s).value)
  {
    hide ProductionAt;
    PlacesOfOperands();
    var p := ItemAt(s).production;
    if 27 <= p <= 31 || 35 <= p <= 42 { InfixOperands(p); }
  }

  lemma ExpressionAdvances(s: nat)
    requires AfterExpression(s).Some? && !(22 <= s <= 24 || 52 <= s <= 66 || s == 68 || s == 135)
    ensures Advances(s, EXPRESSION, AfterExpression(s).value)
  {
    hide ProductionAt;
    PlacesOfOperands();
    PlacesOfExpressions();
    PlacesOfConditions();
  }

  // ----- Identifiers and statement lists -----

  lemma PlacesOfIdentifiers()
    ensures Stands(IDENTIFIER, 8, 1) && Stands(IDENTIFIER, 17, 1) && Stands(IDENTIFIER, 18, 1)
    ensures Stands(IDENTIFIER, 46, 2) && Stands(IDENTIFIER, 49, 0) && Stands(IDENTIFIER, 76, 0)
    ensures Stands(IDENTIFIER, 80, 0) && Stands(NAME, 81, 0)
  {
  }

  lemma IdentifierAdvances(s: nat)
    requires AfterIdentifier(s).Some?
    ensures Advances(s, IDENTIFIER, AfterIdentifier(s).value)
  {
    hide ProductionAt;
    PlacesOfIdentifiers();
  }

  lemma NameAdvances(s: nat)
    ensures Advances(s, NAME, 37)
  {
    hide ProductionAt;
    PlacesOfIdentifiers();
  }

  lemma PlacesOfStatements()
    ensures Stands(STATEMENTS, 4, 1) && Stands(STATEMENTS, 8, 6) && Stands(STATEMENTS, 11, 1)
    ensures Stands(STATEMENTS, 20, 5) && Stands(STATEMENTS, 20, 9) && Stands(STATEMENTS, 22, 5)
    ensures Stands(STATEMENTS, 23, 8)
  {
  }

  lemma StatementsAdvance(s: nat)
    requires AfterStatements(s).Some? && s != 0
    ensures Advances(s, STATEMENTS, AfterStatements(s).value)
  {
    hide ProductionAt;
    PlacesOfStatements();
  }

  // ----- Phrases -----

  lemma PlacesOfPhrases()
    ensures Stands(IF_STATEMENT, 21, 8) && Stands(IDENTIFIERS, 43, 1) && Stands(IDENTIFIERS, 8, 3)
    ensures Stands(LET_DECLARATION, 24, 0) && Stands(ASSIGNMENT, 25, 0) && Stands(ASSIGNMENT, 26, 0)
    ensures Stands(FOR_INITIALISER, 23, 2) && Stands(FOR_FINALISER, 23, 5)
  {
    hide ListProduction;
  }

  lemma PlacesOfLists()
    ensures Stands(NONEMPTY_IDENTIFIERS, 77, 0) && Stands(NONEMPTY_IDENTIFIERS, 79, 2)
    ensures Stands(QUOTED_STRING, 66, 1) && Stands(QUOTED_STRING, 67, 1)
    ensures Stands(NONEMPTY_EXPRESSIONS, 68, 0) && Stands(NONEMPTY_EXPRESSIONS, 70, 2)
    ensures Stands(NONEMPTY_PAIRS, 72, 0) && Stands(NONEMPTY_PAIRS, 74, 2) && Stands(PAIR, 75, 0)
  {
    hide StatementProduction, ExpressionProduction;
  }

  lemma PlacesWithinOperands()
    ensures Stands(EXPRESSIONS, 50, 4) && Stands(EXPRESSIONS, 51, 1) && Stands(EXPRESSIONS, 53, 2)
    ensures Stands(PAIRS, 52, 1)
  {
    hide StatementProduction, ListProduction;
  }

  /** The first `n` symbols of two productions are the same. */
  predicate BeginAlike(p: nat, q: nat, n: nat) {
    n <= |ProductionAt(p).rhs| && n <= |ProductionAt(q).rhs| && ProductionAt(p).rhs[..n] == ProductionAt(q).rhs[..n]
  }

  lemma SharedBeginnings()
    ensures BeginAlike(13, 19, 1) && BeginAlike(20, 21, 8) && BeginAlike(11, 52, 1) && BeginAlike(47, 43, 1)
    ensures BeginAlike(47, 50, 3) && BeginAlike(64, 67, 1) && BeginAlike(65, 66, 1) && BeginAlike(71, 70, 1)
    ensures BeginAlike(75, 74, 1)
  {
  }

  lemma SharedNames()
    ensures BeginAlike(49, 53, 1) && BeginAlike(49, 76, 1) && BeginAlike(49, 79, 1) && BeginAlike(49, 80, 1)
  {
  }

  predicate IsListPart(x: nat) {
    x == EXPRESSIONS || x == NONEMPTY_EXPRESSIONS || x == PAIRS || x == NONEMPTY_PAIRS || x == PAIR
  }

  lemma ListAdvances(s: nat, x: nat)
    requires AfterPhrase(s, x).Some? && IsListPart(x)
    ensures Advances(s, x, AfterPhrase(s, x).value)
  {
    hide ProductionAt;
    PlacesOfLists();
    PlacesWithinOperands();
    SharedBeginnings();
  }

  lemma PhraseAdvances(s: nat, x: nat)
    requires AfterPhrase(s, x).Some? && x != PROGRAM && !IsListPart(x)
    ensures Advances(s, x, AfterPhrase(s, x).value)
  {
    hide ProductionAt;
    PlacesOfPhrases();
    PlacesOfLists();
    SharedBeginnings();
  }

  // ----- Marks -----

  lemma PlacesOfSemicolons()
    ensures Stands(SEMICOLON, 12, 1) && Stands(SEMICOLON, 13, 1) && Stands(SEMICOLON, 14, 2)
    ensures Stands(SEMICOLON, 15, 1) && Stands(SEMICOLON, 16, 1) && Stands(SEMICOLON, 17, 4)
    ensures Stands(SEMICOLON, 18, 4) && Stands(SEMICOLON, 23, 4) && Stands(SEMICOLON, 25, 1)
  {
    hide ExpressionProduction, ListProduction;
  }

  lemma PlacesOfOpenings()
    ensures Stands(OPEN, 8, 2) && Stands(OPEN, 20, 1) && Stands(OPEN, 22, 1) && Stands(OPEN, 23, 1)
    ensures Stands(OPEN, 50, 3) && Stands(OPEN, 53, 1)
  {
    hide ListProduction;
  }

  lemma PlacesOfClosings()
    ensures Stands(CLOSE, 8, 4) && Stands(CLOSE, 20, 3) && Stands(CLOSE, 22, 3) && Stands(CLOSE, 23, 6)
    ensures Stands(CLOSE, 43, 2) && Stands(CLOSE, 47, 2) && Stands(CLOSE, 50, 5) && Stands(CLOSE, 53, 3)
  {
  }

  lemma PlacesOfBraces()
    ensures Stands(OPEN_BRACE, 8, 5) && Stands(OPEN_BRACE, 20, 4) && Stands(OPEN_BRACE, 20, 8)
    ensures Stands(OPEN_BRACE, 22, 4) && Stands(OPEN_BRACE, 23, 7)
    ensures Stands(CLOSE_BRACE, 8, 7) && Stands(CLOSE_BRACE, 11, 2) && Stands(CLOSE_BRACE, 20, 6)
    ensures Stands(CLOSE_BRACE, 20, 10) && Stands(CLOSE_BRACE, 22, 6) && Stands(CLOSE_BRACE, 23, 9)
    ensures Stands(CLOSE_BRACE, 52, 2)
  {
  }

  lemma PlacesOfRareMarks()
    ensures Stands(EQUALS, 17, 2) && Stands(EQUALS, 18, 2) && Stands(EQUALS, 19, 1) && Stands(ELSE, 20, 7)
    ensures Stands(IF, 20, 0) && Stands(LET, 17, 0) && Stands(ARROW, 43, 3) && Stands(CLOSE_BRACKET, 45, 3)
    ensures Stands(CLOSE_BRACKET, 51, 2) && Stands(COLON, 54, 3)
  {
    hide ListProduction;
  }

  lemma PlacesInLists()
    ensures Stands(COLON, 76, 1) && Stands(COMMA, 70, 1) && Stands(COMMA, 74, 1) && Stands(COMMA, 79, 1)
    ensures Stands(EMPTY_STRING, 63, 0) && Stands(PLAIN, 64, 0) && Stands(ESCAPE, 65, 0)
  {
    hide StatementProduction, ExpressionProduction;
  }

  lemma SemicolonAdvances(s: nat)
    requires AfterMark(s, SEMICOLON).Some?
    ensures Advances(s, SEMICOLON, AfterMark(s, SEMICOLON).value)
  {
    hide ProductionAt, AfterRareMark;
    PlacesOfSemicolons();
  }

  lemma OpenAdvances(s: nat)
    requires AfterMark(s, OPEN).Some?
    ensures Advances(s, OPEN, AfterMark(s, OPEN).value)
  {
    hide ProductionAt, AfterRareMark;
    PlacesOfOpenings();
    SharedBeginnings();
    SharedNames();
  }

  lemma CloseAdvances(s: nat)
    requires AfterMark(s, CLOSE).Some?
    ensures Advances(s, CLOSE, AfterMark(s, CLOSE).value)
  {
    hide ProductionAt, AfterRareMark;
    PlacesOfClosings();
  }

  lemma OpenBraceAdvances(s: nat)
    requires AfterMark(s, OPEN_BRACE).Some?
    ensures Advances(s, OPEN_BRACE, AfterMark(s, OPEN_BRACE).value)
  {
    hide ProductionAt, AfterRareMark;
    PlacesOfBraces();
  }

  lemma CloseBraceAdvances(s: nat)
    requires AfterMark(s, CLOSE_BRACE).Some?
    ensures Advances(s, CLOSE_BRACE, AfterMark(s, CLOSE_BRACE).value)
  {
    hide ProductionAt, AfterRareMark;
    PlacesOfBraces();
  }

  predicate IsSeparator(k: nat) {
    k == COLON || k == COMMA || k == CLOSE_BRACKET
  }

  lemma SeparatorAdvances(s: nat, k: nat)
    requires AfterRareMark(s, k).Some? && IsSeparator(k)
    ensures Advances(s, k, AfterRareMark(s, k).value)
  {
    hide ProductionAt;
    PlacesOfRareMarks();
    PlacesInLists();
    SharedBeginnings();
    SharedNames();
  }

  lemma RareMarkAdvances(s: nat, k: nat)
    requires AfterRareMark(s, k).Some? && !IsSeparator(k)
    ensures Advances(s, k, AfterRareMark(s, k).value)
  {
    hide ProductionAt;
    PlacesOfRareMarks();
    PlacesInLists();
    SharedBeginnings();
  }

  lemma MarkAdvances(s: nat, k: nat)
    requires AfterMark(s, k).Some? && k != EOF
    ensures Advances(s, k, AfterMark(s, k).value)
  {
    hide Advances, AfterRareMark;
    if k == SEMICOLON {
      SemicolonAdvances(s);
    } else if k == OPEN {
      OpenAdvances(s);
    } else if k == CLOSE {
      CloseAdvances(s);
    } else if k == OPEN_BRACE {
      OpenBraceAdvances(s);
    } else if k == CLOSE_BRACE {
      CloseBraceAdvances(s);
    } else if IsSeparator(k) {
      SeparatorAdvances(s, k);
    } else {
      RareMarkAdvances(s, k);
    }
  }

  /** The transitions that only the bottom of the stack allows. */
  predicate AtBottom(s: nat, x: nat) {
    (s == 0 && (x == PROGRAM || x == STATEMENTS)) || (s == 2 && x == EOF)
  }

  /** All transitions but those at the bottom and those behind expressions. */
  lemma NextAdvances(s: nat, x: nat)
    requires Next(s, x).Some? && !AtBottom(s, x) && !(Continues(x) && EndsExpression(s))
    ensures Advances(s, x, Next(s, x).value)
  {
    hide Advances, AfterExpression, AfterIdentifier, AfterStatements, AfterPhrase, AfterMark, FirstOfOperand;
    hide FirstOfStatement, TakesOperand, TakesStatement, TakesName, EndsExpression;
    if x == EXPRESSION {
      if 22 <= s <= 24 || 52 <= s <= 66 || s == 68 || s == 135 { OperandAdvances(s); } else { ExpressionAdvances(s); }
    } else if x == IDENTIFIER {
      IdentifierAdvances(s);
    } else if x == NAME {
      NameAdvances(s);
    } else if x == STATEMENTS {
      StatementsAdvance(s);
    } else {
      FirstAdvances(s, x);
      if AfterPhrase(s, x).Some? && x != PROGRAM {
        if IsListPart(x) { ListAdvances(s, x); } else { PhraseAdvances(s, x); }
      }
      if AfterMark(s, x).Some? && x != EOF { MarkAdvances(s, x); }
      OnlyAtBottom(s);
    }
  }

  lemma OnlyAtBottom(s: nat)
    ensures AfterMark(s, EOF).Some? ==> s == 2
    ensures AfterPhrase(s, PROGRAM).Some? ==> s == 0
  {
  }

  lemma ContinuationIsKnown(s: nat, k: nat)
    requires EndsExpression(s) && Continues(k)
    ensures IsSuffix(Known(Behind(k)), Known(s) + [k]) && k != BOTTOM && k != END
  {
    EndsInExpression(s);
    BehindIsKnown(k);
    hide Known, ItemAt, ProductionAt;
    SuffixOfTwo(Known(s), EXPRESSION, k);
  }

  lemma EndsInExpression(s: nat)
    requires EndsExpression(s)
    ensures Known(s) != [] && Known(s)[|Known(s)| - 1] == EXPRESSION
  {
    hide ProductionAt;
    var Item(p, n) := ItemAt(s);
    EndIsExpression(s);
  }

  lemma EndIsExpression(s: nat)
    requires EndsExpression(s)
    ensures s > 1 && ItemAt(s).production != 1 && ItemAt(s).dot > 0
    ensures Stands(EXPRESSION, ItemAt(s).production, ItemAt(s).dot - 1)
  {
    hide ProductionAt;
    PlacesOfOperands();
    PlacesOfExpressions();
    PlacesOfConditions();
    var p := ItemAt(s).production;
    if 27 <= p <= 31 || 35 <= p <= 42 { InfixOperands(p); }
  }

  lemma PlacesOfContinuations()
    ensures Stands(EXPRESSION, 44, 0) && Stands(EXPRESSION, 45, 0) && Stands(EXPRESSION, 46, 0)
    ensures Stands(EXPRESSION, 54, 0) && Stands(ARROW, 44, 1) && Stands(OPEN_BRACKET, 45, 1)
    ensures Stands(DOT, 46, 1) && Stands(QUESTION, 54, 1)
  {
    hide StatementProduction, ListProduction;
  }

  lemma BehindIsKnown(k: nat)
    requires Continues(k)
    ensures k != BOTTOM && k != END && Known(Behind(k)) == [EXPRESSION, k]
  {
    hide ProductionAt;
    var Item(p, n) := ItemAt(Behind(k));
    assert n == 2 && Behind(k) > 1 && p != 1;
    PlacesOfContinuations();
    if 27 <= p <= 31 || 35 <= p <= 42 { InfixOperands(p); }
    assert Stands(EXPRESSION, p, 0) && Stands(k, p, 1);
    assert Known(Behind(k)) == ProductionAt(p).rhs[..2];
  }

  lemma BottomIsKnown()
    ensures Known(0) == [BOTTOM] && Known(1) == [BOTTOM, PROGRAM] && Known(2) == [BOTTOM, STATEMENTS]
    ensures Known(41) == [BOTTOM, STATEMENTS, EOF] && ProductionAt(1).rhs == [STATEMENTS, EOF]
  {
  }

  lemma NextIsKnown(s: nat, x: nat)
    requires Next(s, x).Some?
    ensures x != BOTTOM && x != END && IsSuffix(Known(Next(s, x).value), Known(s) + [x])
  {
    hide Known, ItemAt, ProductionAt, Advances;
    if AtBottom(s, x) {
      BottomIsKnown();
    } else if Continues(x) && EndsExpression(s) {
      ContinuationIsKnown(s, x);
    } else {
      NextAdvances(s, x);
      AdvancingIsKnown(s, x, Next(s, x).value);
      SuffixOfOne(Known(s), x);
    }
  }

  // ----- What a reduction finds, and that it gets on -----

  lemma NoBottom(p: nat)
    ensures BOTTOM !in ProductionAt(p).rhs
  {
    hide StatementProduction, ExpressionProduction, ListProduction;
    if p <= 26 { NoBottomInStatements(p); } else if p <= 54 { NoBottomInExpressions(p); } else { NoBottomInLists(p); }
  }

  lemma NoBottomInStatements(p: nat)
    ensures BOTTOM !in StatementProduction(p).rhs
  {
    if p < 14 { NoBottomInFirstStatements(p); } else { NoBottomInOtherStatements(p); }
    hide StatementProduction;
  }

  lemma NoBottomInFirstStatements(p: nat)
    requires p < 14
    ensures BOTTOM !in StatementProduction(p).rhs
  {
  }

  lemma NoBottomInOtherStatements(p: nat)
    requires 14 <= p
    ensures BOTTOM !in StatementProduction(p).rhs
  {
  }

  lemma NoBottomInExpressions(p: nat)
    ensures BOTTOM !in ExpressionProduction(p).rhs
  {
  }

  lemma NoBottomInLists(p: nat)
    ensures BOTTOM !in ListProduction(p).rhs
  {
  }

  lemma EmptyRightSides()
    ensures ProductionAt(2).rhs == [] && ProductionAt(69).rhs == [] && ProductionAt(73).rhs == []
    ensures ProductionAt(78).rhs == []
  {
  }

  lemma ItemsAreProductions(s: nat)
    ensures ItemAt(s).production < 82 && (ItemAt(s) == Item(1, 2) ==> s == 41)
    ensures s <= 1 ==> ItemAt(s).production == 0
  {
  }

  lemma ReductionIsKnown(s: nat)
    requires ReducesBy(s).Some?
    ensures var p := ReducesBy(s).value;
            && p < 82 && IsSuffix(ProductionAt(p).rhs, Known(s)) && BOTTOM !in ProductionAt(p).rhs
            && (p == 1 ==> Known(s) == [BOTTOM] + ProductionAt(p).rhs)
  {
    hide ItemAt, ProductionAt;
    NoBottom(ReducesBy(s).value);
    ItemsAreProductions(s);
    EmptyRightSides();
    BottomIsKnown();
  }

  /** How many symbols a production has, if fewer than three. */
  function SizeAt(p: nat): nat {
    if p == 2 || p == 69 || p == 73 || p == 78 then 0
    else if p == 3 || (5 <= p <= 7) || p == 9 || p == 10 || p == 24 || p == 26 || p == 48 || p == 49 ||
            (55 <= p <= 65) || p == 68 || p == 71 || p == 72 || p == 75 || p == 77 || p == 80 || p == 81 then 1
    else if p == 1 || p == 4 || p == 12 || p == 13 || p == 15 || p == 16 || p == 25 || (32 <= p <= 34) || p == 66 ||
            p == 67 then 2
    else 3
  }

  lemma SizeOfStatement(p: nat)
    requires 0 < p <= 26
    ensures var n := |StatementProduction(p).rhs|; if SizeAt(p) < 3 then n == SizeAt(p) else n >= 3
  {
  }

  lemma SizeOfExpression(p: nat)
    requires 26 < p <= 54
    ensures var n := |ExpressionProduction(p).rhs|; if SizeAt(p) < 3 then n == SizeAt(p) else n >= 3
  {
  }

  lemma SizeOfList(p: nat)
    requires 54 < p < 82
    ensures var n := |ListProduction(p).rhs|; if SizeAt(p) < 3 then n == SizeAt(p) else n >= 3
  {
  }

  lemma SizeIs(p: nat)
    requires 0 < p < 82
    ensures var n := |ProductionAt(p).rhs|; if SizeAt(p) < 3 then n == SizeAt(p) else n >= 3
  {
    hide StatementProduction, ExpressionProduction, ListProduction;
    if p <= 26 { SizeOfStatement(p); } else if p <= 54 { SizeOfExpression(p); } else { SizeOfList(p); }
  }

  /** The most that a state may have pending, and its highest rank, when its top is phrase `x`. */
  function PendingCap(x: nat): nat {
    if 7 <= x <= 10 || x == CONST_DECLARATION || x == LET_DECLARATION then 1 else 0
  }

  function RankCap(x: nat): nat {
    if x == QUOTED_STRING then 4
    else if x == IDENTIFIER || x == CONSTANTS then 3
    else if x == EXPRESSION || x == PAIR || 8 <= x <= 10 || x == CONST_DECLARATION || x == LET_DECLARATION then 2
    else if x == STATEMENT || x == ASSIGNMENT || x == NONEMPTY_EXPRESSIONS || x == NONEMPTY_PAIRS ||
            x == NONEMPTY_IDENTIFIERS then 1
    else 0
  }

  predicate IsCapped(s: nat, x: nat) {
    WholePending(s) <= PendingCap(x) && WholeRank(s) <= RankCap(x)
  }

  lemma FirstIsCapped(x: nat)
    ensures IsPhrase(x) && FirstOfStatement(x).Some? ==> IsCapped(FirstOfStatement(x).value, x)
    ensures IsPhrase(x) && FirstOfOperand(x).Some? ==> IsCapped(FirstOfOperand(x).value, x)
  {
  }

  lemma ExpressionIsCapped(u: nat)
    ensures AfterExpression(u).Some? ==> IsCapped(AfterExpression(u).value, EXPRESSION)
  {
  }

  lemma IdentifierIsCapped(u: nat)
    ensures AfterIdentifier(u).Some? ==> IsCapped(AfterIdentifier(u).value, IDENTIFIER)
  {
  }

  lemma StatementsAreCapped(u: nat)
    ensures AfterStatements(u).Some? ==> IsCapped(AfterStatements(u).value, STATEMENTS)
  {
  }

  lemma PhraseIsCapped(u: nat, x: nat)
    ensures AfterPhrase(u, x).Some? ==> IsCapped(AfterPhrase(u, x).value, x)
  {
  }

  lemma TargetIsCapped(u: nat, x: nat)
    requires IsPhrase(x) && Next(u, x).Some?
    ensures IsCapped(Next(u, x).value, x)
  {
    hide IsCapped, AfterExpression, AfterIdentifier, AfterStatements, AfterPhrase, FirstOfStatement, FirstOfOperand;
    hide EndsExpression, TakesStatement, TakesOperand;
    FirstIsCapped(x);
    ExpressionIsCapped(u);
    IdentifierIsCapped(u);
    StatementsAreCapped(u);
    PhraseIsCapped(u, x);
  }

  lemma LeftSides()
    ensures ProductionAt(1).lhs == PROGRAM && ProductionAt(2).lhs == ProductionAt(3).lhs == STATEMENTS
    ensures ProductionAt(4).lhs == STATEMENTS && ProductionAt(24).lhs == FOR_INITIALISER
    ensures ProductionAt(25).lhs == FOR_INITIALISER && ProductionAt(26).lhs == FOR_FINALISER
    ensures ProductionAt(5).lhs == ProductionAt(6).lhs == ProductionAt(7).lhs == STATEMENT
    ensures ProductionAt(9).lhs == ProductionAt(10).lhs == ProductionAt(12).lhs == STATEMENT
    ensures ProductionAt(13).lhs == ProductionAt(15).lhs == ProductionAt(16).lhs == STATEMENT
  {
    hide ExpressionProduction, ListProduction;
  }

  lemma LeftSidesOfOperands(p: nat)
    ensures p == 48 || p == 49 || 32 <= p <= 34 ==> ProductionAt(p).lhs == EXPRESSION
    ensures 55 <= p <= 62 ==> ProductionAt(p).lhs == CONSTANTS
    ensures 63 <= p <= 67 ==> ProductionAt(p).lhs == QUOTED_STRING
  {
    hide StatementProduction;
  }

  lemma LeftSidesOfLists()
    ensures ProductionAt(68).lhs == ProductionAt(69).lhs == EXPRESSIONS
    ensures ProductionAt(71).lhs == NONEMPTY_EXPRESSIONS && ProductionAt(72).lhs == ProductionAt(73).lhs == PAIRS
    ensures ProductionAt(75).lhs == NONEMPTY_PAIRS && ProductionAt(77).lhs == ProductionAt(78).lhs == IDENTIFIERS
    ensures ProductionAt(80).lhs == NONEMPTY_IDENTIFIERS && ProductionAt(81).lhs == IDENTIFIER
  {
    hide StatementProduction, ExpressionProduction;
  }

  /** Reducing by `p` in state `s` lowers the measure wherever it leads. */
  predicate BeatsCaps(s: nat, p: nat) {
    var Production(x, rhs) := ProductionAt(p);
    1 + PendingCap(x) < |rhs| + WholePending(s) ||
    (1 + PendingCap(x) == |rhs| + WholePending(s) && RankCap(x) < WholeRank(s))
  }

  lemma EmptyPhraseBeatsCaps(s: nat)
    requires EmptyIn(s).Some?
    ensures BeatsCaps(s, EmptyIn(s).value)
  {
    hide ProductionAt;
    LeftSides();
    LeftSidesOfLists();
    EmptyRightSides();
  }

  lemma ShortStatements(s: nat)
    requires 0 < ItemAt(s).production <= 26 && SizeAt(ItemAt(s).production) == ItemAt(s).dot < 3
    ensures s == 3 || (5 <= s <= 7) || s == 9 || s == 10 || s == 41 || s == 42 || s == 49 || s == 50 || s == 71 ||
            s == 72 || s == 119 || s == 139 || s == 160
  {
  }

  lemma ShortStatementBeatsCaps(s: nat)
    requires 0 < ItemAt(s).production <= 26 && SizeAt(ItemAt(s).production) == ItemAt(s).dot < 3
    ensures BeatsCaps(s, ItemAt(s).production)
  {
    hide ProductionAt;
    ShortStatements(s);
    SizeIs(ItemAt(s).production);
    LeftSides();
  }

  lemma ShortOperandBeatsCaps(s: nat)
    requires 26 < ItemAt(s).production <= 67 && SizeAt(ItemAt(s).production) == ItemAt(s).dot < 3
    ensures BeatsCaps(s, ItemAt(s).production)
  {
    hide ProductionAt;
    SizeIs(ItemAt(s).production);
    LeftSidesOfOperands(ItemAt(s).production);
  }

  lemma ShortLists(s: nat)
    requires 67 < ItemAt(s).production < 82 && SizeAt(ItemAt(s).production) == ItemAt(s).dot < 3
    ensures s == 37 || s == 46 || s == 47 || s == 83 || s == 87 || s == 88 || s == 131
  {
  }

  lemma ShortListBeatsCaps(s: nat)
    requires 67 < ItemAt(s).production < 82 && SizeAt(ItemAt(s).production) == ItemAt(s).dot < 3
    ensures BeatsCaps(s, ItemAt(s).production)
  {
    hide ProductionAt;
    ShortLists(s);
    SizeIs(ItemAt(s).production);
    LeftSidesOfLists();
  }

  lemma ReductionBeatsCaps(s: nat)
    requires ReducesBy(s).Some?
    ensures BeatsCaps(s, ReducesBy(s).value)
  {
    hide ProductionAt, ItemAt, EmptyIn, WholePending, WholeRank, RankCap;
    ItemsAreProductions(s);
    var Item(p, n) := ItemAt(s);
    if EmptyIn(s) == ReducesBy(s) {
      EmptyPhraseBeatsCaps(s);
    } else {
      SizeIs(p);
      if n < 3 {
        hide BeatsCaps;
        if p <= 26 { ShortStatementBeatsCaps(s); }
        else if p <= 67 { ShortOperandBeatsCaps(s); }
        else { ShortListBeatsCaps(s); }
      }
    }
  }

  lemma WholeLowers(s: nat, u: nat)
    requires ReducesBy(s).Some? && WholeGoto(u, ProductionAt(ReducesBy(s).value).lhs).Some?
    ensures var Production(x, rhs) := ProductionAt(ReducesBy(s).value);
            var s' := WholeGoto(u, x).value;
            1 + WholePending(s') < |rhs| + WholePending(s) ||
            (1 + WholePending(s') == |rhs| + WholePending(s) && WholeRank(s') < WholeRank(s))
  {
    hide ProductionAt, Next, WholePending, WholeRank, PendingCap, RankCap, ReducesBy, IsPhrase;
    ReductionBeatsCaps(s);
    TargetIsCapped(u, ProductionAt(ReducesBy(s).value).lhs);
  }

  /** The parser's table meets its certificate: on whatever tokens, parsing is sound and comes to an end. */
  lemma WholeIsValid(number: string -> Number)
    ensures Valid(Whole(number), WHOLE_PROOF)
  {
    hide Known, Next, ReducesBy, Reduces, IsPhrase, ProductionAt, WholePending, WholeRank, ActAt;
    var t := Whole(number);
    BottomIsKnown();
    forall s: nat, x: nat, s': nat | Transition(t, s, x, s')
      ensures x != BOTTOM && IsSuffix(WHOLE_PROOF.known(s'), WHOLE_PROOF.known(s) + [x])
    {
      NextIsKnown(s, x);
    }
    forall s: nat, s': nat ensures t.action(s, END) != Shift(s') {
      if t.action(s, END) == Shift(s') { NextIsKnown(s, END); }
    }
    forall s: nat, p: nat | ReducesIn(t, s, p) ensures ReducesWell(t, WHOLE_PROOF, s, p) {
      ReductionIsKnown(s);
    }
    forall s: nat, p: nat, u: nat, s': nat | ReducesIn(t, s, p) && t.goto(u, t.productions[p].lhs) == Some(s')
      ensures Lowers(t, WHOLE_PROOF, s, p, s')
    {
      ReductionIsKnown(s);
      WholeLowers(s, u);
    }
  }

  // ----- The reduce sets -----

  /** The symbols that end every operand, and the sets the table lists of those on which a complete operation is
      reduced. */
  const ENDS: set<nat> := {6, 15, 17, 26, 48, 50, 56, 69}

  function ReduceSet(s: nat): set<nat> {
    if 78 <= s <= 80 || 99 <= s <= 101 then
      ENDS + {34, 35, 36, 37, 38, 40, 41, 42, 43, 44, 45, 46, 47, 55}
    else if s == 97 || s == 98 then ENDS + {34, 35, 40, 41, 42, 43, 44, 45, 46, 47, 55}
    else if 106 <= s <= 109 then ENDS + {40, 41, 42, 43, 44, 45, 46, 47, 55}
    else if s == 104 || s == 105 then ENDS + {40, 41, 42, 43, 55}
    else if s == 102 then ENDS + {40, 41, 55}
    else if s == 103 then ENDS + {41, 55}
    else ENDS
  }

  lemma CompleteReduces(s: nat)
    requires Completes(s)
    ensures ReducesBy(s).Some? && 27 <= ReducesBy(s).value <= 54 && ReducesBy(s).value != 45
  {
    hide StatementProduction, ListProduction;
  }

  lemma CompleteGoesOn(s: nat, k: nat)
    requires Completes(s) && !IsPhrase(k)
    ensures Next(s, k).Some? <==> Continues(k) && Tightness(k) > Hold(s)
  {
    hide Tightness, Hold, Behind;
  }

  lemma ReduceSetIs(s: nat, k: nat)
    requires Completes(s)
    ensures k in ReduceSet(s) <==> (Continues(k) && Tightness(k) <= Hold(s)) || (!Continues(k) && EndsOperand(s, k))
    ensures Continues(k) ==> (k in ReduceSet(s) <==> Tightness(k) <= Hold(s))
  {
  }

  /** The levels are what the reduce sets say: a complete operation is reduced on just the symbols listed for it, and
      an operator is among them if and only if it binds no tighter. */
  lemma ReduceSetsAreLevels(s: nat, k: nat)
    requires Completes(s) && !IsPhrase(k)
    ensures WholeAction(s, k).Reduce? <==> k in ReduceSet(s)
    ensures Continues(k) ==> (k in ReduceSet(s) <==> Tightness(k) <= Hold(s))
  {
    hide Next, ReducesBy, ReduceSet, Completes, Continues, Tightness, Hold, EndsOperand, IsPhrase;
    CompleteReduces(s);
    CompleteGoesOn(s, k);
    ReduceSetIs(s, k);
  }
}
