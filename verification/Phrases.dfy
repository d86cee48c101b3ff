/** Phrases to be written: a derivation, what it means and how it is spelled, put together from parts. */
module Phrases {
  import opened Syntax
  import opened LRParser
  import opened LRSoundness
  import opened Rendering
  import opened Grammar
  import opened Precedence
  import opened WholeTable

  datatype Phrase = Phrase(tree: Tree, value: Value, lexemes: seq<Lexeme>)

  // ----- Meaning -----

  /** A derivation means `v` wherever it stands. */
  ghost predicate Says(number: string -> Number, d: Tree, v: Value) {
    forall before, below :: Meaning(Whole(number), d, before, below).0 == v
  }

  ghost predicate SayAll(number: string -> Number, ds: seq<Tree>, vs: seq<Value>) {
    |ds| == |vs| && forall i | 0 <= i < |ds| :: Says(number, ds[i], vs[i])
  }

  lemma {:induction false} MeaningsAre(number: string -> Number, ds: seq<Tree>, vs: seq<Value>, before: Token,
                                       below: Loc)
    requires SayAll(number, ds, vs)
    ensures MeaningAll(Whole(number), ds, before, below).0 == vs
  {
    hide Meaning;
    if ds != [] {
      var n := |ds| - 1;
      MeaningsAre(number, ds[..n], vs[..n], before, below);
      assert vs[..n] + [vs[n]] == vs;
    }
  }

  /** The productions whose action looks at the last token. */
  predicate LooksAtLast(p: nat) {
    p == 55 || p == 56 || p == 65 || p == 81
  }

  lemma ActIgnoresLast(number: string -> Number, p: nat, vs: seq<Value>, last: Token, other: Token)
    requires !LooksAtLast(p)
    ensures ActAt(number, p, vs, last) == ActAt(number, p, vs, other)
  {
    hide ProductionAt, StatementAct, ExpressionAct, Unescape;
  }

  lemma BranchSays(number: string -> Number, p: nat, ds: seq<Tree>, vs: seq<Value>)
    requires SayAll(number, ds, vs) && !LooksAtLast(p)
    ensures Says(number, Branch(p, ds), ActAt(number, p, vs, NO_TOKEN))
  {
    hide MeaningAll, ActAt;
    forall before, below
      ensures Meaning(Whole(number), Branch(p, ds), before, below).0 == ActAt(number, p, vs, NO_TOKEN)
    {
      MeaningsAre(number, ds, vs, before, below);
      ActIgnoresLast(number, p, vs, LastOf(YieldAll(ds), before), NO_TOKEN);
    }
  }

  lemma LeafSays(number: string -> Number, k: Token)
    ensures Says(number, Leaf(k), Text(k.text))
  {
  }

  /** A token whose own text its production takes. */
  lemma TokenSays(number: string -> Number, p: nat, k: Token)
    requires LooksAtLast(p) && ProductionAt(p).rhs == [k.kind]
    ensures Says(number, Branch(p, [Leaf(k)]), ActAt(number, p, [Text(k.text)], k))
  {
    hide ActAt, ProductionAt;
    var ds := [Leaf(k)];
    LeafSays(number, k);
    assert ds[..0] == [] && YieldAll(ds) == [] + [k];
    forall before, below
      ensures Meaning(Whole(number), Branch(p, ds), before, below).0 == ActAt(number, p, [Text(k.text)], k)
    {
      MeaningsAre(number, ds, [Text(k.text)], before, below);
    }
  }

  // ----- Spelling -----

  ghost predicate AreLexemes(xs: seq<Lexeme>) {
    forall x | x in xs :: IsLexeme(x)
  }

  ghost predicate Spells(ks: seq<Token>, xs: seq<Lexeme>) {
    WordsOf(ks) == Words(xs) && AreLexemes(xs)
  }

  lemma SpellsBoth(ks: seq<Token>, xs: seq<Lexeme>, ls: seq<Token>, ys: seq<Lexeme>)
    requires Spells(ks, xs) && Spells(ls, ys)
    ensures Spells(ks + ls, xs + ys)
  {
    hide IsLexeme, Words;
    WordsSplit(xs, ys);
    assert WordsOf(ks + ls) == WordsOf(ks) + WordsOf(ls);
  }

  // ----- Parentheses -----

  predicate IsParenthesised(d: Tree) {
    d.Branch? && d.production == 47 && |d.children| == 3
  }

  /** Part `i` is an expression in parentheses, and would be grouped as well without them. */
  predicate IsSpare(p: nat, ds: seq<Tree>, i: nat) {
    i < |ds| && IsParenthesised(ds[i]) && GroupsParts(p, ds[i := ds[i].children[1]])
  }

  /** Every pair of parentheses around an operand is needed. */
  predicate NoneSpare(d: Tree) {
    d.Branch? ==> forall i | 0 <= i < |d.children| :: NoneSpare(d.children[i]) && !IsSpare(d.production, d.children, i)
  }

  // ----- Phrases -----

  /** A phrase of kind `x` with value `v`, grouped by precedence with no parentheses to spare. */
  ghost predicate IsWritten(number: string -> Number, ph: Phrase, x: nat, v: Value) {
    && IsDerivation(ph.tree) && Grouped(ph.tree) && NoneSpare(ph.tree) && Symbol(ph.tree) == x
    && ph.value == v && Says(number, ph.tree, v) && Spells(Yield(ph.tree), ph.lexemes)
  }

  ghost predicate AreWritten(number: string -> Number, parts: seq<Phrase>, xs: seq<nat>, vs: seq<Value>) {
    |parts| == |xs| == |vs| && forall i | 0 <= i < |xs| :: IsWritten(number, parts[i], xs[i], vs[i])
  }

  function Trees(parts: seq<Phrase>): (ds: seq<Tree>)
    ensures |ds| == |parts|
  {
    seq(|parts|, i requires 0 <= i < |parts| => parts[i].tree)
  }

  function Values(parts: seq<Phrase>): (vs: seq<Value>)
    ensures |vs| == |parts|
  {
    seq(|parts|, i requires 0 <= i < |parts| => parts[i].value)
  }

  function Joined(parts: seq<Phrase>): seq<Lexeme> {
    if parts == [] then [] else Joined(parts[..|parts| - 1]) + parts[|parts| - 1].lexemes
  }

  function Compose(number: string -> Number, p: nat, parts: seq<Phrase>): Phrase {
    Phrase(Branch(p, Trees(parts)), ActAt(number, p, Values(parts), NO_TOKEN), Joined(parts))
  }

  lemma {:induction false} PartsSpell(number: string -> Number, parts: seq<Phrase>, xs: seq<nat>, vs: seq<Value>)
    requires AreWritten(number, parts, xs, vs)
    ensures Spells(YieldAll(Trees(parts)), Joined(parts))
  {
    hide Spells, Says, Symbol, Yield, IsDerivation, Grouped, NoneSpare;
    if parts == [] {
      NothingSpells();
    } else {
      var n := |parts| - 1;
      assert IsWritten(number, parts[n], xs[n], vs[n]);
      PartsSpell(number, parts[..n], xs[..n], vs[..n]);
      assert Trees(parts)[..n] == Trees(parts[..n]);
      SpellsBoth(YieldAll(Trees(parts[..n])), Joined(parts[..n]), Yield(parts[n].tree), parts[n].lexemes);
    }
  }

  lemma NothingSpells()
    ensures Spells([], [])
  {
  }

  /** No part is in parentheses that are to spare. */
  predicate NoPartSpare(p: nat, ds: seq<Tree>) {
    forall i | 0 <= i < |ds| :: !IsSpare(p, ds, i)
  }

  /** Written parts put together are written. */
  lemma ComposeIsWritten(number: string -> Number, p: nat, parts: seq<Phrase>, vs: seq<Value>, v: Value)
    requires 1 < p < 82 && !LooksAtLast(p) && AreWritten(number, parts, ProductionAt(p).rhs, vs)
    requires GroupsParts(p, Trees(parts)) && NoPartSpare(p, Trees(parts)) && ActAt(number, p, vs, NO_TOKEN) == v
    ensures IsWritten(number, Compose(number, p, parts), ProductionAt(p).lhs, v)
  {
    hide Says, Spells, ProductionAt, ActAt, GroupsParts, IsSpare, Grouped, NoneSpare, IsDerivation, Symbol, Yield;
    var ds := Trees(parts);
    PartsSpell(number, parts, ProductionAt(p).rhs, vs);
    forall i | 0 <= i < |parts|
      ensures Says(number, ds[i], vs[i]) && IsDerivation(ds[i]) && Symbol(ds[i]) == ProductionAt(p).rhs[i]
      ensures Grouped(ds[i]) && NoneSpare(ds[i]) && Values(parts)[i] == vs[i]
    {
      assert IsWritten(number, parts[i], ProductionAt(p).rhs[i], vs[i]);
    }
    assert Values(parts) == vs;
    BranchSays(number, p, ds, vs);
    BranchIsDerivation(p, ds);
    BranchIsGrouped(p, ds);
    YieldOfBranch(p, ds);
  }

  lemma YieldOfBranch(p: nat, ds: seq<Tree>)
    ensures Yield(Branch(p, ds)) == YieldAll(ds) && Symbol(Branch(p, ds)) == ProductionAt(p).lhs
  {
    hide ProductionAt;
  }

  lemma BranchIsDerivation(p: nat, ds: seq<Tree>)
    requires 1 < p < 82 && |ds| == |ProductionAt(p).rhs|
    requires forall i | 0 <= i < |ds| :: Symbol(ds[i]) == ProductionAt(p).rhs[i] && IsDerivation(ds[i])
    ensures IsDerivation(Branch(p, ds))
  {
    hide ProductionAt, Symbol;
  }

  lemma BranchIsGrouped(p: nat, ds: seq<Tree>)
    requires GroupsParts(p, ds) && NoPartSpare(p, ds)
    requires forall i | 0 <= i < |ds| :: Grouped(ds[i]) && NoneSpare(ds[i])
    ensures Grouped(Branch(p, ds)) && NoneSpare(Branch(p, ds))
  {
    hide GroupsParts, IsSpare;
  }

  /** A token with its spelling. */
  function Mark(k: nat): Phrase {
    var text := if SymbolRule(k).Some? then SymbolRule(k).value.1 else "";
    Phrase(Leaf(Token(k, text, 0, START_LOC)), Text(text), [Single(Word(k, text))])
  }

  lemma MarkIsWritten(number: string -> Number, k: nat)
    requires SymbolRule(k).Some? && !IsPhrase(k)
    ensures IsWritten(number, Mark(k), k, Mark(k).value) && Mark(k).value.Text?
  {
    hide SymbolRule, IsPhrase;
    var w := Word(k, SymbolRule(k).value.1);
    SymbolIsWord(w);
    OneSpells(Token(k, w.text, 0, START_LOC));
  }

  lemma SymbolIsWord(w: Word)
    requires SymbolRule(w.kind).Some? && w.text == SymbolRule(w.kind).value.1
    ensures IsWordOf(w)
  {
    NamesAreNoSymbols();
    hide SymbolRule;
  }

  lemma NamesAreNoSymbols()
    ensures SymbolRule(73).None? && SymbolRule(57).None?
  {
  }

  lemma OneSpells(k: Token)
    requires IsWordOf(WordOf(k))
    ensures Spells([k], [Single(WordOf(k))])
  {
    hide IsWordOf;
    assert Words([Single(WordOf(k))][1..]) == [];
  }

  // ----- Tokens that their production takes the text of -----

  lemma OneTree(d: Tree)
    ensures [d][..0] == [] && YieldAll([d]) == Yield(d)
  {
  }

  lemma TokenIsWritten(number: string -> Number, p: nat, k: Token)
    requires 1 < p < 82 && LooksAtLast(p) && ProductionAt(p).rhs == [k.kind] && !IsPhrase(k.kind)
    requires IsWordOf(WordOf(k))
    ensures IsWritten(number, Phrase(Branch(p, [Leaf(k)]), ActAt(number, p, [Text(k.text)], k), [Single(WordOf(k))]),
                      ProductionAt(p).lhs, ActAt(number, p, [Text(k.text)], k))
  {
    hide ActAt, ProductionAt, IsPhrase, IsWordOf, Spells, Says;
    OneTree(Leaf(k));
    TokenSays(number, p, k);
    OneSpells(k);
    var ds := [Leaf(k)];
    assert IsDerivation(ds[0]) && !IsSpare(p, ds, 0);
    BranchIsDerivation(p, ds);
    BranchIsGrouped(p, ds);
    YieldOfBranch(p, ds);
  }
}
