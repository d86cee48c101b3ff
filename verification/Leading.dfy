/** The parser's table leads along a derivation exactly where the derivation respects precedence. */
module Leading {
  import opened Options
  import opened Syntax
  import opened LRParser
  import opened LRSoundness
  import opened LRCompleteness
  import opened Grammar
  import opened Precedence
  import opened WholeTable
  import opened Places
  import opened Endings
  import opened Fitting

  // ----- The table and the derivation -----

  lemma LeafFollows(number: string -> Number, token: Token, s: nat, k: nat)
    requires !IsPhrase(token.kind) && WholeDefault(s) == None
    ensures Leads(Whole(number), s, Leaf(token), k) == Next(s, token.kind)
  {
    hide Next, WholeDefault, ReducesBy, Reduces, IsPhrase;
  }

  lemma BranchFollows(number: string -> Number, p: nat, ds: seq<Tree>, s: nat, k: nat)
    requires IsDerivation(Branch(p, ds)) && IsPhrase(ProductionAt(p).lhs)
    ensures var q := LeadsAll(Whole(number), s, ds, k);
            Leads(Whole(number), s, Branch(p, ds), k) ==
              if q.Some? && ReducesOn(q.value, k, p) then Next(s, ProductionAt(p).lhs) else None
  {
    hide LeadsAll, Next, WholeDefault, WholeAction, ProductionAt, IsPhrase;
    var t := Whole(number);
    RootsAre(number, p, ds);
  }

  lemma RootsAre(number: string -> Number, p: nat, ds: seq<Tree>)
    requires IsDerivation(Branch(p, ds))
    ensures Roots(Whole(number), ds) == ProductionAt(p).rhs
  {
    hide ProductionAt;
    forall i | 0 <= i < |ds| ensures Root(Whole(number), ds[i]) == Symbol(ds[i]) {
      assert IsDerivation(ds[i]);
    }
  }

  lemma LeafFits(s: nat, p: nat, ds: seq<Tree>, j: nat, k: nat)
    requires IsDerivation(Branch(p, ds)) && j < |ds| && ds[j].Leaf? && TokenGoes(s, p, j)
    requires |ds| == |ProductionAt(p).rhs|
    ensures Next(At(s, p, j), ds[j].token.kind) == if PartFits(s, p, ds, j, k) then Some(At(s, p, j + 1)) else None
  {
    hide Next, At, ProductionAt, WholeDefault, IsPhrase, Fits, Ahead;
    PartIs(p, ds, j);
  }

  /** Each part leads on from the state before it if it fits there, and nowhere otherwise. */
  lemma {:induction false} AllFollow(number: string -> Number, s: nat, p: nat, ds: seq<Tree>, i: nat, k: nat)
    requires IsDerivation(Branch(p, ds)) && Admits(s, ProductionAt(p).lhs, k) && i <= |ds|
    ensures LeadsAll(Whole(number), s, ds[..i], Ahead(ds, i, k)) ==
            if PartsFit(s, p, ds, i, k) then Some(At(s, p, i)) else None
    decreases ds, i
  {
    hide Next, At, ProductionAt, Admits, WholeDefault, IsPhrase, PartFits, Yield, Leads, Ahead, IsDerivation, Symbol;
    if i > 0 {
      var j, look := i - 1, Ahead(ds, i, k);
      var u, d := At(s, p, j), ds[j];
      AllFollow(number, s, p, ds, j, k);
      PartIs(p, ds, j);
      if IsPhrase(ProductionAt(p).rhs[j]) { AheadMayStand(s, p, ds, j, k); }
      PartsGo(s, p, j, k, look);
      AheadIs(ds, j, k);
      assert ds[..i][..j] == ds[..j] && ds[..i][j] == d;
      if d.Branch? {
        Follows(number, d, u, look);
        BranchFits(s, p, ds, j, k);
      } else {
        LeafIsFollowed(number, s, p, ds, j, k);
      }
    } else {
      NothingLeads(number, s, p, Ahead(ds, 0, k), ds);
    }
  }

  lemma AheadIs(ds: seq<Tree>, j: nat, k: nat)
    requires j < |ds|
    ensures Ahead(ds, j, k) == FirstKind(Yield(ds[j]), Ahead(ds, j + 1, k))
  {
  }

  lemma BranchFits(s: nat, p: nat, ds: seq<Tree>, j: nat, k: nat)
    requires j < |ds| && ds[j].Branch?
    ensures PartFits(s, p, ds, j, k) <==> Fits(ds[j], At(s, p, j), Ahead(ds, j + 1, k))
  {
    hide Fits, At, Ahead;
  }

  lemma LeafIsFollowed(number: string -> Number, s: nat, p: nat, ds: seq<Tree>, j: nat, k: nat)
    requires IsDerivation(Branch(p, ds)) && |ds| == |ProductionAt(p).rhs| && j < |ds| && ds[j].Leaf?
    requires PartGoes(s, p, j, Ahead(ds, j + 1, k))
    ensures Leads(Whole(number), At(s, p, j), ds[j], Ahead(ds, j + 1, k)) ==
            if PartFits(s, p, ds, j, k) then Some(At(s, p, j + 1)) else None
  {
    hide Next, At, ProductionAt, WholeDefault, IsPhrase, PartFits, Leads, IsDerivation, PhraseGoes;
    PartIs(p, ds, j);
    LeafFits(s, p, ds, j, k);
    TokenHasNoDefault(s, p, j);
    hide TokenGoes;
    LeafFollows(number, ds[j].token, At(s, p, j), Ahead(ds, j + 1, k));
  }

  lemma TokenHasNoDefault(s: nat, p: nat, j: nat)
    requires j < |ProductionAt(p).rhs| && TokenGoes(s, p, j)
    ensures WholeDefault(At(s, p, j)) == None
  {
    hide At, ProductionAt, WholeDefault, Next;
  }

  lemma NothingLeads(number: string -> Number, s: nat, p: nat, k: nat, ds: seq<Tree>)
    ensures LeadsAll(Whole(number), s, ds[..0], k) == Some(s) && At(s, p, 0) == s
  {
  }

  /** The table leads along a derivation, where its phrase may stand, if and only if the derivation fits there. */
  lemma {:induction false} Follows(number: string -> Number, d: Tree, s: nat, k: nat)
    requires IsDerivation(d) && d.Branch? && Admits(s, Symbol(d), k)
    ensures Leads(Whole(number), s, d, k) == if Fits(d, s, k) then Next(s, Symbol(d)) else None
    decreases d, 0
  {
    hide Next, At, ProductionAt, Admits, WholeDefault, IsPhrase, Yield, Leads, LeadsAll, Ahead, ReducesOn, EndsWell;
    hide Fits, PartsFit, IsDerivation;
    var Branch(p, ds) := d;
    AllFollow(number, s, p, ds, |ds|, k);
    assert ds[..|ds|] == ds;
    NothingBehind(ds, k);
    Starts(d);
    BranchFollows(number, p, ds, s, k);
    IsInstance(p, ds);
    EndsIff(s, p, k);
    FitsIff(s, p, ds, k);
  }

  // ----- Programs -----

  lemma {:induction false} LeadsDerives(number: string -> Number, s: nat, d: Tree, k: nat)
    requires Leads(Whole(number), s, d, k).Some?
    ensures IsDerivation(d)
    decreases d, 0
  {
    hide Next, WholeDefault, ReducesBy, Reduces, ProductionAt, IsPhrase;
    match d
    case Leaf(token) =>
    case Branch(p, ds) =>
      NoPhraseIsBottom();
      AllLeadDerives(number, s, ds, k);
      RootsAreSymbols(number, p, ds);
  }

  lemma NoPhraseIsBottom()
    ensures ProductionAt(0).lhs == BOTTOM && !IsPhrase(BOTTOM)
  {
  }

  lemma {:induction false} AllLeadDerives(number: string -> Number, s: nat, ds: seq<Tree>, k: nat)
    requires LeadsAll(Whole(number), s, ds, k).Some?
    ensures forall i | 0 <= i < |ds| :: IsDerivation(ds[i])
    decreases ds, 1
  {
    hide Leads, IsDerivation;
    if ds != [] {
      var n := |ds| - 1;
      var look := FirstKind(Yield(ds[n]), k);
      AllLeadDerives(number, s, ds[..n], look);
      LeadsDerives(number, LeadsAll(Whole(number), s, ds[..n], look).value, ds[n], k);
      forall i | 0 <= i < |ds| ensures IsDerivation(ds[i]) {
        if i < n { assert ds[i] == ds[..n][i]; }
      }
    }
  }

  lemma RootsAreSymbols(number: string -> Number, p: nat, ds: seq<Tree>)
    requires Roots(Whole(number), ds) == ProductionAt(p).rhs && forall i | 0 <= i < |ds| :: IsDerivation(ds[i])
    ensures |ds| == |ProductionAt(p).rhs| && forall i | 0 <= i < |ds| :: Symbol(ds[i]) == ProductionAt(p).rhs[i]
  {
    hide ProductionAt, IsPhrase;
    var rs := Roots(Whole(number), ds);
    forall i | 0 <= i < |ds| ensures Symbol(ds[i]) == rs[i] {
      assert rs[i] == Root(Whole(number), ds[i]);
      SymbolIsRoot(number, ds[i]);
    }
  }

  lemma SymbolIsRoot(number: string -> Number, d: Tree)
    requires IsDerivation(d)
    ensures Root(Whole(number), d) == Symbol(d)
  {
    hide ProductionAt, IsPhrase;
  }

  /** A derivation of all the statements of a program, grouped by precedence. */
  ghost predicate DerivesProgram(d: Tree) {
    IsDerivation(d) && Symbol(d) == STATEMENTS && Grouped(d)
  }

  lemma ProgramFits(d: Tree)
    requires IsDerivation(d) && Symbol(d) == STATEMENTS
    ensures d.Branch? && Admits(0, STATEMENTS, EOF) && (Fits(d, 0, EOF) <==> Grouped(d))
  {
    hide ProductionAt, Grouped, Opens, Closes, IsDerivation, IsOneName, BeginsWithEmptyObject;
    if d.Leaf? { LeafIsNoPhrase(d); }
    Edges(d, HoldAt(0), Pull(EOF));
  }

  lemma LeafIsNoPhrase(d: Tree)
    requires d.Leaf? && IsDerivation(d)
    ensures !IsPhrase(Symbol(d))
  {
  }

  lemma ProgramLeads(number: string -> Number, d: Tree)
    requires IsDerivation(d) && Symbol(d) == STATEMENTS
    ensures Leads(Whole(number), 0, d, EOF) == if Grouped(d) then Some(2) else None
  {
    hide Leads, Grouped, Fits, IsDerivation, Symbol, Admits, Next;
    ProgramFits(d);
    Follows(number, d, 0, EOF);
    StatementsAreNext();
  }

  lemma StatementsAreNext()
    ensures Next(0, STATEMENTS) == Some(2) && Next(2, EOF) == Some(41) && WholeDefault(2) == None && !IsPhrase(EOF)
  {
  }

  lemma ProgramIsReduced(number: string -> Number, k: nat)
    ensures Resolved(Whole(number), 41, k) == Reduce(1) && Whole(number).productions[1].rhs == [STATEMENTS, EOF]
  {
  }

  /** What is read before the end of the file is a grouped derivation, and every one is read. */
  lemma ReadIff(number: string -> Number, ds: seq<Tree>, rest: seq<Token>)
    ensures IsRead(Whole(number), ds, rest) <==>
            |ds| == 2 && DerivesProgram(ds[0]) && ds[1].Leaf? && ds[1].token.kind == EOF
  {
    hide Leads, Grouped, IsDerivation, Next, WholeDefault, ReducesBy, Symbol, IsPhrase;
    var t, k := Whole(number), FirstKind(rest, END);
    StatementsAreNext();
    ProgramIsReduced(number, k);
    if IsRead(t, ds, rest) {
      ReadDerives(number, ds, rest);
      ProgramLeads(number, ds[0]);
    }
    if |ds| == 2 && DerivesProgram(ds[0]) && ds[1].Leaf? && ds[1].token.kind == EOF {
      ProgramLeads(number, ds[0]);
      LeafFollows(number, ds[1].token, 2, k);
      SymbolIsRoot(number, ds[0]);
      TwoLead(number, ds, k);
    }
  }

  lemma ReadDerives(number: string -> Number, ds: seq<Tree>, rest: seq<Token>)
    requires IsRead(Whole(number), ds, rest)
    ensures |ds| == 2 && IsDerivation(ds[0]) && Symbol(ds[0]) == STATEMENTS
    ensures ds[1].Leaf? && ds[1].token.kind == EOF && Leads(Whole(number), 0, ds[0], EOF).Some?
  {
    hide Leads, Grouped, IsDerivation, Next, WholeDefault, ReducesBy, Symbol;
    var t, k := Whole(number), FirstKind(rest, END);
    ProgramIsReduced(number, k);
    assert |ds| == |Roots(t, ds)| == 2;
    TwoLead(number, ds, k);
    AllLeadDerives(number, 0, ds, k);
    assert IsDerivation(ds[0]) && IsDerivation(ds[1]);
    SymbolIsRoot(number, ds[0]);
    SymbolIsRoot(number, ds[1]);
    assert Roots(t, ds)[0] == Root(t, ds[0]) && Roots(t, ds)[1] == Root(t, ds[1]);
    if ds[1].Branch? {
      Starts(ds[1]);
      assert false;
    }
    LeafHasSymbol(ds[1]);
  }

  lemma TwoLead(number: string -> Number, ds: seq<Tree>, k: nat)
    requires |ds| == 2
    ensures var t := Whole(number);
            var s := Leads(t, 0, ds[0], FirstKind(Yield(ds[1]), k));
            LeadsAll(t, 0, ds, k) == if s.Some? then Leads(t, s.value, ds[1], k) else None
  {
    hide Leads, Yield;
    assert ds[..1] == [ds[0]] && ds[..1][..0] == [];
    var t := Whole(number);
    assert LeadsAll(t, 0, ds[..1], FirstKind(Yield(ds[1]), k)) == Leads(t, 0, ds[0], FirstKind(Yield(ds[1]), k));
  }

  lemma MeaningOfProgram(number: string -> Number, d: Tree, eof: Token)
    ensures Meaning(Whole(number), Branch(1, [d, Leaf(eof)]), NO_TOKEN, START_LOC).0 ==
            Meaning(Whole(number), d, NO_TOKEN, START_LOC).0
  {
    hide Meaning;
    var t, ds := Whole(number), [d, Leaf(eof)];
    var vs := MeaningAll(t, ds, NO_TOKEN, START_LOC).0;
    MeaningsOfTwo(number, d, eof);
    MeaningOfBranch(t, 1, ds, NO_TOKEN, START_LOC);
    hide MeaningAll;
    PassesStatements(number, vs, LastOf(YieldAll(ds), NO_TOKEN));
  }

  lemma MeaningsOfTwo(number: string -> Number, d: Tree, eof: Token)
    ensures MeaningAll(Whole(number), [d, Leaf(eof)], NO_TOKEN, START_LOC).0 ==
            [Meaning(Whole(number), d, NO_TOKEN, START_LOC).0, Text(eof.text)]
  {
    var ds := [d, Leaf(eof)];
    assert ds[..1] == [d] && [d][..0] == [];
  }

  lemma PassesStatements(number: string -> Number, vs: seq<Value>, last: Token)
    requires |vs| == 2 && vs[1].Text?
    ensures ActAt(number, 1, vs, last) == vs[0]
  {
    if vs[0].Thrown? { assert AnyThrown(vs); }
  }

  /** The parser exactly: it returns a value if and only if the value is the meaning of a derivation by the grammar
      that is grouped by precedence, of the tokens before the end of the file. */
  lemma ParserIff(number: string -> Number, ks: seq<Token>, v: Value)
    ensures Valid(Whole(number), WHOLE_PROOF)
    ensures Parse(Whole(number), WHOLE_PROOF, ks) == Some(v) <==>
            exists d: Tree, eof: Token, rest :: DerivesProgram(d) && eof.kind == EOF && ks == Yield(d) + [eof] + rest &&
                               v == Meaning(Whole(number), d, NO_TOKEN, START_LOC).0
  {
    hide Parse, Valid, IsRead, DerivesProgram, Meaning;
    WholeIsValid(number);
    var t := Whole(number);
    ParseIff(t, WHOLE_PROOF, ks, v);
    if Parse(t, WHOLE_PROOF, ks) == Some(v) {
      var ds: seq<Tree>, rest: seq<Token> :| IsRead(t, ds, rest) && YieldAll(ds) + rest == ks &&
                      v == Meaning(t, Branch(1, ds), NO_TOKEN, START_LOC).0;
      ReadIff(number, ds, rest);
      var d, eof := ds[0], ds[1].token;
      assert ds == [d, Leaf(eof)];
      YieldOfProgram(d, eof);
      MeaningOfProgram(number, d, eof);
      assert ks == Yield(d) + [eof] + rest;
    }
    forall d: Tree, eof: Token, rest | DerivesProgram(d) && eof.kind == EOF && ks == Yield(d) + [eof] + rest
      ensures Parse(t, WHOLE_PROOF, ks) == Some(Meaning(t, d, NO_TOKEN, START_LOC).0)
    {
      ProgramIsParsed(number, d, eof, rest);
    }
  }

  lemma YieldOfProgram(d: Tree, eof: Token)
    ensures YieldAll([d, Leaf(eof)]) == Yield(d) + [eof]
  {
    var ds := [d, Leaf(eof)];
    assert ds[..1] == [d] && [d][..0] == [];
    assert YieldAll([d]) == [] + Yield(d);
  }

  lemma ProgramIsParsed(number: string -> Number, d: Tree, eof: Token, rest: seq<Token>)
    requires DerivesProgram(d) && eof.kind == EOF && Valid(Whole(number), WHOLE_PROOF)
    ensures Parse(Whole(number), WHOLE_PROOF, Yield(d) + [eof] + rest) ==
            Some(Meaning(Whole(number), d, NO_TOKEN, START_LOC).0)
  {
    hide Parse, Valid, IsRead, DerivesProgram, Meaning;
    var ds := [d, Leaf(eof)];
    ReadIff(number, ds, rest);
    YieldOfProgram(d, eof);
    MeaningOfProgram(number, d, eof);
    ReadIsParsed(Whole(number), WHOLE_PROOF, ds, rest);
  }
}
