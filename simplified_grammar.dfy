/** Lowering of an extended grammar into flat rules, nullable nonterminals, FIRST sets
    with left-recursion detection, and the look-ahead filter used by the parser. */
module SimplifiedGrammar {
  import opened Wrappers
  import opened Grammar
  import opened FirstCharacters

  /** A flat rule: a list of symbols; the empty list is the epsilon rule. */
  datatype SimplifiedRule = SimplifiedRule(symbols: seq<Symbol>)
  {
    predicate IsEpsilon() { |symbols| == 0 }
  }

  type RulesMap = map<NonTerminal, seq<SimplifiedRule>>

  // ===========================================================================
  // Lowering (processRule)

  function Digit(d: nat): char
    requires d < 10
  {
    "0123456789"[d]
  }

  function NatToString(n: nat): string
  {
    if n < 10 then [Digit(n)] else NatToString(n / 10) + [Digit(n % 10)]
  }

  /** The synthetic nonterminal `N_i`. */
  function Synthetic(n: NonTerminal, i: nat): NonTerminal
  {
    NonTerminal(n.name + "_" + NatToString(i))
  }

  /** `addRule`: append a rule to the list of n, creating the list on first use. */
  function AppendRule(m: RulesMap, n: NonTerminal, rule: SimplifiedRule): RulesMap
  {
    m[n := (if n in m then m[n] else []) + [rule]]
  }

  /** A size that makes the lowering of Repeat(e), which goes through
      Sequence(e, N), smaller than Repeat(e) itself. */
  function Size(e: Expression): (r: nat)
    ensures r >= 1
  {
    match e
    case Sym(_) => 1
    case Sequence(ps) => 1 + SizeSeq(ps)
    case Choise(vs) => 1 + SizeSeq(vs)
    case Repeat(x) => Size(x) + 4
    case Maybe(x) => Size(x) + 1
  }

  function SizeSeq(es: seq<Expression>): (r: nat)
    ensures r >= 1
  {
    if es == [] then 1 else Size(es[0]) + SizeSeq(es[1..])
  }

  lemma {:induction false} SizeOfElement(es: seq<Expression>, k: nat)
    requires k < |es|
    ensures Size(es[k]) < SizeSeq(es)
    ensures SizeSeq(es[k + 1..]) < SizeSeq(es[k..])
  {
    if k > 0 {
      SizeOfElement(es[1..], k - 1);
      assert es[1..][k - 1] == es[k];
      assert es[1..][k..] == es[k + 1..];
      assert es[1..][k - 1..] == es[k..];
    } else {
      assert es[0..] == es;
      assert es[1..] == es[k + 1..];
    }
  }

  /** Repeat(x) is lowered through Sequence(x, N), which is smaller. */
  lemma RepeatUnrollSmaller(x: Expression, n: NonTerminal)
    ensures Size(Sequence([x, Sym(NT(n))])) < Size(Repeat(x))
  {
    var ps := [x, Sym(NT(n))];
    assert ps[1..] == [Sym(NT(n))];
    assert [Sym(NT(n))][1..] == [];
    assert SizeSeq([Sym(NT(n))]) == 2;
    assert SizeSeq(ps) == Size(x) + 2;
  }

  /** The rules map after `processRule(n, e)`. */
  function Lower(m: RulesMap, n: NonTerminal, e: Expression): RulesMap
    decreases Size(e), 1
  {
    match e
    case Sym(s) => AppendRule(m, n, SimplifiedRule([s]))
    case Choise(vs) => LowerChoise(m, n, vs, 0)
    case Repeat(x) =>
      RepeatUnrollSmaller(x, n);
      AppendRule(Lower(m, n, Sequence([x, Sym(NT(n))])), n, SimplifiedRule([]))
    case Maybe(x) => AppendRule(Lower(m, n, x), n, SimplifiedRule([]))
    case Sequence(ps) => LowerSequence(m, n, ps, 0, [])
  }

  /** The remaining variants vs of a Choise under n; i counts the synthetic
      nonterminals introduced so far in this Choise. */
  function LowerChoise(m: RulesMap, n: NonTerminal, vs: seq<Expression>, i: nat): RulesMap
    decreases SizeSeq(vs), 0
  {
    if vs == [] then m
    else
      SizeOfElement(vs, 0);
      assert vs[1..] == vs[0 + 1..];
      LowerChoise(LowerVariant(m, n, vs[0], i), n, vs[1..], if vs[0].Repeat? || vs[0].Maybe? then i + 1 else i)
  }

  /** One variant v of a Choise under n: a Repeat or a Maybe is lowered under the
      synthetic nonterminal n_i, which n then derives; anything else under n itself. */
  function LowerVariant(m: RulesMap, n: NonTerminal, v: Expression, i: nat): RulesMap
    decreases Size(v), 2
  {
    if v.Repeat? || v.Maybe? then
      var synthetic := Synthetic(n, i);
      AppendRule(Lower(m, synthetic, v), n, SimplifiedRule([NT(synthetic)]))
    else
      Lower(m, n, v)
  }

  /** The remaining parts ps of a Sequence under n; syms holds the symbols of the
      rule built so far and i counts the synthetic nonterminals introduced. */
  function LowerSequence(m: RulesMap, n: NonTerminal, ps: seq<Expression>, i: nat, syms: seq<Symbol>): RulesMap
    decreases SizeSeq(ps), 0
  {
    if ps == [] then AppendRule(m, n, SimplifiedRule(syms))
    else
      SizeOfElement(ps, 0);
      assert ps[1..] == ps[0 + 1..];
      if ps[0].Sym? then LowerSequence(m, n, ps[1..], i, syms + [ps[0].symbol])
      else
        var synthetic := Synthetic(n, i);
        LowerSequence(Lower(m, synthetic, ps[0]), n, ps[1..], i + 1, syms + [NT(synthetic)])
  }

  // ---------------------------------------------------------------------------
  // What lowering does to the rules map

  /** The rules of n, or none when n is not yet a key. */
  function RulesOf(m: RulesMap, n: NonTerminal): seq<SimplifiedRule>
  {
    if n in m then m[n] else []
  }

  /** k is n itself or a nonterminal whose name extends n's name by `_`, as every
      synthetic nonterminal introduced under n does. */
  predicate Owned(n: NonTerminal, k: NonTerminal)
  {
    k == n || (|n.name| + 1 <= |k.name| && k.name[..|n.name| + 1] == n.name + "_")
  }

  /** Every list of m survives as a prefix of its list in m'. */
  predicate Grows(m: RulesMap, m': RulesMap)
  {
    forall k :: k in m ==> k in m' && m[k] <= m'[k]
  }

  /** Going from m to m' changes only the lists of nonterminals owned by n. */
  ghost predicate OnlyOwned(m: RulesMap, m': RulesMap, n: NonTerminal)
  {
    forall k :: !Owned(n, k) ==> (k in m' <==> k in m) && (k in m ==> m'[k] == m[k])
  }

  lemma OwnedBySynthetic(n: NonTerminal, i: nat, k: NonTerminal)
    requires Owned(Synthetic(n, i), k)
    ensures Owned(n, k) && k != n
  {
    var prefix := n.name + "_";
    var syn := Synthetic(n, i).name;
    assert syn[..|prefix|] == prefix;
    if k != Synthetic(n, i) {
      assert k.name[..|syn| + 1][..|prefix|] == k.name[..|prefix|];
      assert (syn + "_")[..|prefix|] == prefix;
    }
  }

  lemma AppendRuleEffect(m: RulesMap, n: NonTerminal, rule: SimplifiedRule)
    ensures Grows(m, AppendRule(m, n, rule)) && OnlyOwned(m, AppendRule(m, n, rule), n)
    ensures RulesOf(AppendRule(m, n, rule), n) == RulesOf(m, n) + [rule]
  {
  }

  lemma GrowsTrans(a: RulesMap, b: RulesMap, c: RulesMap)
    requires Grows(a, b) && Grows(b, c)
    ensures Grows(a, c)
  {
  }

  lemma OnlyOwnedTrans(a: RulesMap, b: RulesMap, c: RulesMap, n: NonTerminal)
    requires OnlyOwned(a, b, n) && OnlyOwned(b, c, n)
    ensures OnlyOwned(a, c, n)
  {
  }

  lemma OnlyOwnedSynthetic(a: RulesMap, b: RulesMap, n: NonTerminal, i: nat)
    requires OnlyOwned(a, b, Synthetic(n, i))
    ensures OnlyOwned(a, b, n) && RulesOf(b, n) == RulesOf(a, n)
  {
    forall k | !Owned(n, k)
      ensures (k in b <==> k in a) && (k in a ==> b[k] == a[k])
    {
      if Owned(Synthetic(n, i), k) {
        OwnedBySynthetic(n, i, k);
      }
    }
    if Owned(Synthetic(n, i), n) {
      OwnedBySynthetic(n, i, n);
    }
  }

  /** Lowering under n only appends rules, and only to n and to nonterminals
      derived from n. */
  lemma {:induction false} LowerFrame(m: RulesMap, n: NonTerminal, e: Expression)
    ensures Grows(m, Lower(m, n, e)) && OnlyOwned(m, Lower(m, n, e), n)
    decreases Size(e), 1
  {
    match e
    case Sym(s) =>
      AppendRuleEffect(m, n, SimplifiedRule([s]));
    case Choise(vs) =>
      LowerChoiseFrame(m, n, vs, 0);
    case Repeat(x) =>
      RepeatUnrollSmaller(x, n);
      var m1 := Lower(m, n, Sequence([x, Sym(NT(n))]));
      LowerFrame(m, n, Sequence([x, Sym(NT(n))]));
      AppendRuleEffect(m1, n, SimplifiedRule([]));
      GrowsTrans(m, m1, Lower(m, n, e));
      OnlyOwnedTrans(m, m1, Lower(m, n, e), n);
    case Maybe(x) =>
      var m1 := Lower(m, n, x);
      LowerFrame(m, n, x);
      AppendRuleEffect(m1, n, SimplifiedRule([]));
      GrowsTrans(m, m1, Lower(m, n, e));
      OnlyOwnedTrans(m, m1, Lower(m, n, e), n);
    case Sequence(ps) =>
      LowerSequenceFrame(m, n, ps, 0, []);
  }

  lemma {:induction false} LowerChoiseFrame(m: RulesMap, n: NonTerminal, vs: seq<Expression>, i: nat)
    ensures Grows(m, LowerChoise(m, n, vs, i)) && OnlyOwned(m, LowerChoise(m, n, vs, i), n)
    decreases SizeSeq(vs), 0
  {
    if vs != [] {
      SizeOfElement(vs, 0);
      assert vs[1..] == vs[0 + 1..];
      var m1 := LowerVariant(m, n, vs[0], i);
      var r := LowerChoise(m, n, vs, i);
      LowerVariantFrame(m, n, vs[0], i);
      LowerChoiseFrame(m1, n, vs[1..], if vs[0].Repeat? || vs[0].Maybe? then i + 1 else i);
      GrowsTrans(m, m1, r);
      OnlyOwnedTrans(m, m1, r, n);
    }
  }

  lemma {:induction false} LowerVariantFrame(m: RulesMap, n: NonTerminal, v: Expression, i: nat)
    ensures Grows(m, LowerVariant(m, n, v, i)) && OnlyOwned(m, LowerVariant(m, n, v, i), n)
    decreases Size(v), 2
  {
    if v.Repeat? || v.Maybe? {
      var syn := Synthetic(n, i);
      var m1 := Lower(m, syn, v);
      var m2 := AppendRule(m1, n, SimplifiedRule([NT(syn)]));
      LowerFrame(m, syn, v);
      OnlyOwnedSynthetic(m, m1, n, i);
      AppendRuleEffect(m1, n, SimplifiedRule([NT(syn)]));
      GrowsTrans(m, m1, m2);
      OnlyOwnedTrans(m, m1, m2, n);
    } else {
      LowerFrame(m, n, v);
    }
  }

  lemma {:induction false} LowerSequenceFrame(m: RulesMap, n: NonTerminal, ps: seq<Expression>, i: nat, syms: seq<Symbol>)
    ensures Grows(m, LowerSequence(m, n, ps, i, syms)) && OnlyOwned(m, LowerSequence(m, n, ps, i, syms), n)
    decreases SizeSeq(ps), 0
  {
    if ps == [] {
      AppendRuleEffect(m, n, SimplifiedRule(syms));
    } else {
      SizeOfElement(ps, 0);
      assert ps[1..] == ps[0 + 1..];
      var r := LowerSequence(m, n, ps, i, syms);
      if ps[0].Sym? {
        LowerSequenceFrame(m, n, ps[1..], i, syms + [ps[0].symbol]);
      } else {
        var syn := Synthetic(n, i);
        var m1 := Lower(m, syn, ps[0]);
        LowerFrame(m, syn, ps[0]);
        OnlyOwnedSynthetic(m, m1, n, i);
        LowerSequenceFrame(m1, n, ps[1..], i + 1, syms + [NT(syn)]);
        GrowsTrans(m, m1, r);
        OnlyOwnedTrans(m, m1, r, n);
      }
    }
  }

  /** How many of the first k parts are not bare symbols: the index of the next
      synthetic nonterminal. */
  function NonSymbolsBefore(ps: seq<Expression>, k: nat): nat
    requires k <= |ps|
  {
    if k == 0 then 0 else NonSymbolsBefore(ps, k - 1) + (if ps[k - 1].Sym? then 0 else 1)
  }

  lemma {:induction false} NonSymbolsBeforeShift(ps: seq<Expression>, k: nat)
    requires 0 < |ps| && k < |ps|
    ensures NonSymbolsBefore(ps, k + 1) == (if ps[0].Sym? then 0 else 1) + NonSymbolsBefore(ps[1..], k)
  {
    if k > 0 {
      NonSymbolsBeforeShift(ps, k - 1);
      assert ps[1..][k - 1] == ps[k];
    }
  }

  /** The symbol that part k of a sequence under n stands for in the emitted rule,
      when i synthetic nonterminals were already introduced. */
  function PartSymbol(n: NonTerminal, ps: seq<Expression>, i: nat, k: nat): Symbol
    requires k < |ps|
  {
    if ps[k].Sym? then ps[k].symbol else NT(Synthetic(n, i + NonSymbolsBefore(ps, k)))
  }

  /** The symbols a Sequence's rule gets, one per part. */
  function PartSymbols(n: NonTerminal, ps: seq<Expression>, i: nat): seq<Symbol>
  {
    seq(|ps|, k requires 0 <= k < |ps| => PartSymbol(n, ps, i, k))
  }

  /** The part symbols of ps are the first one followed by those of the rest. */
  lemma PartSymbolsShift(n: NonTerminal, ps: seq<Expression>, i: nat)
    requires ps != []
    ensures PartSymbols(n, ps, i)
      == [PartSymbol(n, ps, i, 0)]
         + PartSymbols(n, ps[1..], if ps[0].Sym? then i else i + 1)
  {
    var i' := if ps[0].Sym? then i else i + 1;
    var whole := PartSymbols(n, ps, i);
    var tail := PartSymbols(n, ps[1..], i');
    forall k | 0 <= k < |ps| - 1
      ensures tail[k] == whole[k + 1]
    {
      NonSymbolsBeforeShift(ps, k);
      assert ps[1..][k] == ps[k + 1];
    }
  }

  lemma {:induction false} LowerSequenceRule(m: RulesMap, n: NonTerminal, ps: seq<Expression>, i: nat, syms: seq<Symbol>)
    ensures RulesOf(LowerSequence(m, n, ps, i, syms), n)
      == RulesOf(m, n) + [SimplifiedRule(syms + PartSymbols(n, ps, i))]
    decreases SizeSeq(ps)
  {
    if ps == [] {
      assert syms + PartSymbols(n, ps, i) == syms;
    } else {
      SizeOfElement(ps, 0);
      assert ps[1..] == ps[0 + 1..];
      var i' := if ps[0].Sym? then i else i + 1;
      var head := PartSymbol(n, ps, i, 0);
      var tail := PartSymbols(n, ps[1..], i');
      PartSymbolsShift(n, ps, i);
      if ps[0].Sym? {
        LowerSequenceRule(m, n, ps[1..], i, syms + [head]);
      } else {
        var m1 := Lower(m, Synthetic(n, i), ps[0]);
        LowerFrame(m, Synthetic(n, i), ps[0]);
        OnlyOwnedSynthetic(m, m1, n, i);
        LowerSequenceRule(m1, n, ps[1..], i + 1, syms + [head]);
      }
      assert syms + [head] + tail == syms + ([head] + tail);
    }
  }

  /** A Sequence under n emits one rule for n with one symbol per part, in order:
      a bare symbol stands for itself, any other part for `n_i`, where i counts the
      non-symbol parts before it. */
  lemma SequenceEmitsOneRule(m: RulesMap, n: NonTerminal, ps: seq<Expression>)
    ensures RulesOf(Lower(m, n, Sequence(ps)), n)
      == RulesOf(m, n) + [SimplifiedRule(PartSymbols(n, ps, 0))]
  {
    LowerSequenceRule(m, n, ps, 0, []);
    assert [] + PartSymbols(n, ps, 0)
      == PartSymbols(n, ps, 0);
  }

  /** Repeat(x) under n gives n the rules `X n` and the empty rule, where X is x
      itself when x is a bare symbol and `n_0` otherwise: n derives any number of X. */
  lemma RepeatEmitsLoop(m: RulesMap, n: NonTerminal, x: Expression)
    ensures RulesOf(Lower(m, n, Repeat(x)), n)
      == RulesOf(m, n) + [SimplifiedRule([if x.Sym? then x.symbol else NT(Synthetic(n, 0)), NT(n)]), SimplifiedRule([])]
  {
    RepeatUnrollSmaller(x, n);
    var ps := [x, Sym(NT(n))];
    var m1 := Lower(m, n, Sequence(ps));
    SequenceEmitsOneRule(m, n, ps);
    AppendRuleEffect(m1, n, SimplifiedRule([]));
    assert PartSymbols(n, ps, 0)
      == [if x.Sym? then x.symbol else NT(Synthetic(n, 0)), NT(n)];
  }

  /** Maybe(x) under n gives n the rules x gives it, followed by the empty rule. */
  lemma MaybeEmitsEpsilon(m: RulesMap, n: NonTerminal, x: Expression)
    ensures RulesOf(Lower(m, n, Maybe(x)), n) == RulesOf(Lower(m, n, x), n) + [SimplifiedRule([])]
    ensures Grows(m, Lower(m, n, Maybe(x)))
  {
    LowerFrame(m, n, x);
    AppendRuleEffect(Lower(m, n, x), n, SimplifiedRule([]));
    GrowsTrans(m, Lower(m, n, x), Lower(m, n, Maybe(x)));
  }

  /** How many of the first k variants of a Choise are Repeat or Maybe. */
  function LoopsBefore(vs: seq<Expression>, k: nat): nat
    requires k <= |vs|
  {
    if k == 0 then 0 else LoopsBefore(vs, k - 1) + (if vs[k - 1].Repeat? || vs[k - 1].Maybe? then 1 else 0)
  }

  lemma {:induction false} LoopsBeforeShift(vs: seq<Expression>, k: nat)
    requires 0 < |vs| && k < |vs|
    ensures LoopsBefore(vs, k + 1) == (if vs[0].Repeat? || vs[0].Maybe? then 1 else 0) + LoopsBefore(vs[1..], k)
  {
    if k > 0 {
      LoopsBeforeShift(vs, k - 1);
      assert vs[1..][k - 1] == vs[k];
    }
  }

  /** The one rule variant k of a Choise under n gives n, when the variant is not
      itself a Choise. */
  function VariantRule(n: NonTerminal, vs: seq<Expression>, i: nat, k: nat): SimplifiedRule
    requires k < |vs|
  {
    match vs[k]
    case Sym(s) => SimplifiedRule([s])
    case Sequence(ps) => SimplifiedRule(PartSymbols(n, ps, 0))
    case _ => SimplifiedRule([NT(Synthetic(n, i + LoopsBefore(vs, k)))])
  }

  /** The first variant, when it is not a Choise, adds its one rule to n. */
  lemma VariantEmits(m: RulesMap, n: NonTerminal, vs: seq<Expression>, i: nat)
    requires vs != [] && !vs[0].Choise?
    ensures RulesOf(LowerVariant(m, n, vs[0], i), n) == RulesOf(m, n) + [VariantRule(n, vs, i, 0)]
  {
    if vs[0].Repeat? || vs[0].Maybe? {
      var syn := Synthetic(n, i);
      var m0 := Lower(m, syn, vs[0]);
      LowerFrame(m, syn, vs[0]);
      OnlyOwnedSynthetic(m, m0, n, i);
      AppendRuleEffect(m0, n, SimplifiedRule([NT(syn)]));
    } else {
      match vs[0]
      case Sym(s) =>
        AppendRuleEffect(m, n, SimplifiedRule([s]));
      case Sequence(ps) =>
        SequenceEmitsOneRule(m, n, ps);
    }
  }

  /** The variant rules of vs are the first one followed by those of the rest. */
  lemma VariantRulesShift(n: NonTerminal, vs: seq<Expression>, i: nat)
    requires vs != []
    ensures seq(|vs|, k requires 0 <= k < |vs| => VariantRule(n, vs, i, k))
      == [VariantRule(n, vs, i, 0)]
         + seq(|vs| - 1, k requires 0 <= k < |vs| - 1 => VariantRule(n, vs[1..], if vs[0].Repeat? || vs[0].Maybe? then i + 1 else i, k))
  {
    var i' := if vs[0].Repeat? || vs[0].Maybe? then i + 1 else i;
    var whole := seq(|vs|, k requires 0 <= k < |vs| => VariantRule(n, vs, i, k));
    var tail := seq(|vs| - 1, k requires 0 <= k < |vs| - 1 => VariantRule(n, vs[1..], i', k));
    forall k | 0 <= k < |vs| - 1
      ensures tail[k] == whole[k + 1]
    {
      LoopsBeforeShift(vs, k);
      assert vs[1..][k] == vs[k + 1];
    }
  }

  lemma {:induction false} LowerChoiseRules(m: RulesMap, n: NonTerminal, vs: seq<Expression>, i: nat)
    requires forall k :: 0 <= k < |vs| ==> !vs[k].Choise?
    ensures RulesOf(LowerChoise(m, n, vs, i), n)
      == RulesOf(m, n) + seq(|vs|, k requires 0 <= k < |vs| => VariantRule(n, vs, i, k))
    decreases |vs|
  {
    if vs == [] {
      assert RulesOf(m, n) + [] == RulesOf(m, n);
    } else {
      var i' := if vs[0].Repeat? || vs[0].Maybe? then i + 1 else i;
      VariantEmits(m, n, vs, i);
      VariantRulesShift(n, vs, i);
      LowerChoiseRules(LowerVariant(m, n, vs[0], i), n, vs[1..], i');
      assert LowerChoise(m, n, vs, i) == LowerChoise(LowerVariant(m, n, vs[0], i), n, vs[1..], i');
    }
  }

  /** A Choise under n whose variants are not Choises gives n one rule per variant,
      in order: `[s]` for a bare symbol, the emitted rule for a Sequence, and `[n_i]`
      for a Repeat or Maybe, i counting the Repeat and Maybe variants before it. */
  lemma ChoiseEmitsOneRulePerVariant(m: RulesMap, n: NonTerminal, vs: seq<Expression>)
    requires forall k :: 0 <= k < |vs| ==> !vs[k].Choise?
    ensures RulesOf(Lower(m, n, Choise(vs)), n)
      == RulesOf(m, n) + seq(|vs|, k requires 0 <= k < |vs| => VariantRule(n, vs, 0, k))
  {
    LowerChoiseRules(m, n, vs, 0);
  }

  /** Lowering `y [z]` under n: `[z]` goes to `n_0`, then n gets `y n_0`. */
  lemma LowerSymbolThenMaybe(m: RulesMap, n: NonTerminal, y: Symbol, z: Symbol)
    ensures Lower(m, n, Sequence([Sym(y), Maybe(Sym(z))]))
      == AppendRule(Lower(m, Synthetic(n, 0), Maybe(Sym(z))), n, SimplifiedRule([y, NT(Synthetic(n, 0))]))
  {
    var ps := [Sym(y), Maybe(Sym(z))];
    var n0 := Synthetic(n, 0);
    var m3 := Lower(m, n0, Maybe(Sym(z)));
    var m4 := AppendRule(m3, n, SimplifiedRule([y, NT(n0)]));
    assert ps[1..] == [Maybe(Sym(z))];
    assert [Maybe(Sym(z))][1..] == [];
    assert LowerSequence(m3, n, [], 1, [y, NT(n0)]) == m4;
    assert [y] + [NT(n0)] == [y, NT(n0)];
    assert Lower(m, Synthetic(n, 0), [Maybe(Sym(z))][0]) == m3;
    assert LowerSequence(m, n, [Maybe(Sym(z))], 0, [y]) == m4;
    assert LowerSequence(m, n, ps, 0, []) == LowerSequence(m, n, [Maybe(Sym(z))], 0, [] + [y]);
    assert [] + [y] == [y];
  }

  /** Lowering `( {x} | s )` under n: `{x}` goes to `n_0`, n gets `n_0`, then s is lowered. */
  lemma LowerRepeatOrOther(n: NonTerminal, x: Symbol, s: Expression)
    requires !s.Repeat? && !s.Maybe?
    ensures Lower(map[], n, Choise([Repeat(Sym(x)), s]))
      == Lower(AppendRule(Lower(map[], Synthetic(n, 0), Repeat(Sym(x))), n, SimplifiedRule([NT(Synthetic(n, 0))])), n, s)
  {
    var vs := [Repeat(Sym(x)), s];
    var m2 := AppendRule(Lower(map[], Synthetic(n, 0), Repeat(Sym(x))), n, SimplifiedRule([NT(Synthetic(n, 0))]));
    var m4 := Lower(m2, n, s);
    assert vs[1..] == [s];
    assert [s][1..] == [];
    assert LowerChoise(m4, n, [], 1) == m4;
    assert LowerChoise(m2, n, [s], 1) == m4;
    assert LowerChoise(map[], n, vs, 0) == LowerChoise(m2, n, [s], 1);
  }

  /** The synthetic counter is local to each Choise and each Sequence, so a Repeat
      variant and a Maybe nested in a sibling Sequence both become `N_0`, and the
      rules of the two end up in one list. */
  lemma SyntheticNamesCollide()
    ensures
      var x := Terminal("x");
      var y := Terminal("y");
      var z := Terminal("z");
      var n := NonTerminal("N");
      var n0 := NonTerminal("N_0");
      var g := Lower(map[], n, Choise([Repeat(Sym(x)), Sequence([Sym(y), Maybe(Sym(z))])]));
      n0 in g && n in g
      && g[n0] == [SimplifiedRule([x, NT(n0)]), SimplifiedRule([]), SimplifiedRule([z]), SimplifiedRule([])]
      && g[n] == [SimplifiedRule([NT(n0)]), SimplifiedRule([y, NT(n0)])]
  {
    var x := Terminal("x");
    var y := Terminal("y");
    var z := Terminal("z");
    var n := NonTerminal("N");
    var n0 := NonTerminal("N_0");
    assert Synthetic(n, 0) == n0;
    var m1 := Lower(map[], n0, Repeat(Sym(x)));
    RepeatEmitsLoop(map[], n0, Sym(x));
    var m2 := AppendRule(m1, n, SimplifiedRule([NT(n0)]));
    assert n !in m1 by {
      LowerFrame(map[], n0, Repeat(Sym(x)));
      assert !Owned(n0, n);
    }
    var m3 := Lower(m2, n0, Maybe(Sym(z)));
    MaybeEmitsEpsilon(m2, n0, Sym(z));
    assert RulesOf(m3, n) == RulesOf(m2, n) by {
      LowerFrame(m2, n0, Maybe(Sym(z)));
      assert !Owned(n0, n);
    }
    LowerSymbolThenMaybe(m2, n, y, z);
    LowerRepeatOrOther(n, x, Sequence([Sym(y), Maybe(Sym(z))]));
  }

  /** The lowering builder: the rules map it fills while lowering. */
  class Builder {
    var targetRules: RulesMap

    constructor ()
      ensures targetRules == map[]
    {
      targetRules := map[];
    }

    method AddRule(rule: SimplifiedRule, n: NonTerminal)
      modifies this
      ensures targetRules == AppendRule(old(targetRules), n, rule)
    {
      var list := if n in targetRules then targetRules[n] else [];
      targetRules := targetRules[n := list + [rule]];
    }

    /** `processRule`: lower e under n into targetRules. */
    method ProcessRule(n: NonTerminal, e: Expression)
      modifies this
      ensures targetRules == Lower(old(targetRules), n, e)
      decreases Size(e)
    {
      match e
      case Sym(s) =>
        AddRule(SimplifiedRule([s]), n);
      case Choise(vs) =>
        var i := 0;
        var k := 0;
        while k < |vs|
          invariant 0 <= k <= |vs|
          invariant LowerChoise(targetRules, n, vs[k..], i) == Lower(old(targetRules), n, e)
        {
          var variant := vs[k];
          SizeOfElement(vs, k);
          assert vs[k..][0] == variant && vs[k..][1..] == vs[k + 1..];
          if variant.Repeat? || variant.Maybe? {
            var newNonTerminal := Synthetic(n, i);
            i := i + 1;
            ProcessRule(newNonTerminal, variant);
            AddRule(SimplifiedRule([NT(newNonTerminal)]), n);
          } else {
            ProcessRule(n, variant);
          }
          k := k + 1;
        }
      case Repeat(x) =>
        RepeatUnrollSmaller(x, n);
        ProcessRule(n, Sequence([x, Sym(NT(n))]));
        AddRule(SimplifiedRule([]), n);
      case Maybe(x) =>
        ProcessRule(n, x);
        AddRule(SimplifiedRule([]), n);
      case Sequence(ps) =>
        var newSymbolsList := [];
        var i := 0;
        var k := 0;
        while k < |ps|
          invariant 0 <= k <= |ps|
          invariant LowerSequence(targetRules, n, ps[k..], i, newSymbolsList) == Lower(old(targetRules), n, e)
        {
          var expr := ps[k];
          SizeOfElement(ps, k);
          assert ps[k..][0] == expr && ps[k..][1..] == ps[k + 1..];
          if expr.Sym? {
            newSymbolsList := newSymbolsList + [expr.symbol];
          } else {
            var newNonTerminal := Synthetic(n, i);
            i := i + 1;
            ProcessRule(newNonTerminal, expr);
            newSymbolsList := newSymbolsList + [NT(newNonTerminal)];
          }
          k := k + 1;
        }
        AddRule(SimplifiedRule(newSymbolsList), n);
    }
  }

  // ---------------------------------------------------------------------------
  // Lowering a whole grammar (getGrammar)

  /** The rules after lowering the grammar's entries in the given order. */
  function LowerAll(g: Grammar, order: seq<NonTerminal>): RulesMap
    requires forall j :: 0 <= j < |order| ==> order[j] in g
  {
    if order == [] then map[]
    else
      var n := order[|order| - 1];
      Lower(LowerAll(g, order[..|order| - 1]), n, g[n])
  }

  /** Every nonterminal of the lowered grammar is one of the grammar's own
      nonterminals or a synthetic one derived from it. */
  lemma {:induction false} LowerAllOwned(g: Grammar, order: seq<NonTerminal>)
    requires forall j :: 0 <= j < |order| ==> order[j] in g
    ensures forall k :: k in LowerAll(g, order) ==> exists j :: 0 <= j < |order| && Owned(order[j], k)
  {
    if order != [] {
      var init := order[..|order| - 1];
      var n := order[|order| - 1];
      LowerAllOwned(g, init);
      var before := LowerAll(g, init);
      LowerFrame(before, n, g[n]);
      forall k | k in LowerAll(g, order)
        ensures exists j :: 0 <= j < |order| && Owned(order[j], k)
      {
        if Owned(n, k) {
          assert Owned(order[|order| - 1], k);
        } else {
          assert k in before;
          var j :| 0 <= j < |init| && Owned(init[j], k);
          assert Owned(order[j], k);
        }
      }
    }
  }

  /** The lowering part of `getGrammar`, run sequentially: every entry of the grammar
      is lowered once, in an unspecified order. */
  method LowerGrammar(g: Grammar) returns (rules: RulesMap, ghost order: seq<NonTerminal>)
    ensures forall k :: k in g <==> k in order
    ensures forall i, j :: 0 <= i < j < |order| ==> order[i] != order[j]
    ensures rules == LowerAll(g, order)
    ensures forall k :: k in rules ==> exists n :: n in g && Owned(n, k)
  {
    var builder := new Builder();
    var left := g.Keys;
    order := [];
    while left != {}
      invariant forall k :: k in g <==> k in left || k in order
      invariant forall k :: k in left ==> k !in order
      invariant forall i, j :: 0 <= i < j < |order| ==> order[i] != order[j]
      invariant builder.targetRules == LowerAll(g, order)
      decreases left
    {
      var n :| n in left;
      builder.ProcessRule(n, g[n]);
      assert (order + [n])[..|order|] == order;
      order := order + [n];
      left := left - {n};
    }
    rules := builder.targetRules;
    LowerAllOwned(g, order);
  }

  // ===========================================================================
  // Nullable nonterminals (the first loop of `init`)

  /** Every symbol of the rule is a nonterminal in eps; true of the empty rule. */
  predicate NullableRule(rule: SimplifiedRule, eps: set<NonTerminal>)
  {
    forall p :: 0 <= p < |rule.symbols| ==> rule.symbols[p].NT? && rule.symbols[p].nonTerminal in eps
  }

  predicate HasNullableRule(rs: seq<SimplifiedRule>, eps: set<NonTerminal>)
  {
    exists j :: 0 <= j < |rs| && NullableRule(rs[j], eps)
  }

  /** S is closed under the nullable rule: a nonterminal with a rule made only of
      members of S is itself in S. */
  ghost predicate Closed(rules: RulesMap, S: set<NonTerminal>)
  {
    forall n :: n in rules && HasNullableRule(rules[n], S) ==> n in S
  }

  lemma NullableMonotone(rs: seq<SimplifiedRule>, a: set<NonTerminal>, b: set<NonTerminal>)
    requires HasNullableRule(rs, a) && a <= b
    ensures HasNullableRule(rs, b)
  {
    var j :| 0 <= j < |rs| && NullableRule(rs[j], a);
    assert NullableRule(rs[j], b);
  }

  ghost function Elements(s: seq<NonTerminal>): set<NonTerminal>
  {
    set x | x in s
  }

  /** Each element of order has a rule made of elements before it. */
  ghost predicate Justified(rules: RulesMap, order: seq<NonTerminal>)
  {
    forall k :: 0 <= k < |order| ==> order[k] in rules && HasNullableRule(rules[order[k]], Elements(order[..k]))
  }

  lemma JustifiedSnoc(rules: RulesMap, order: seq<NonTerminal>, n: NonTerminal)
    requires Justified(rules, order) && n in rules && HasNullableRule(rules[n], Elements(order))
    ensures Justified(rules, order + [n]) && Elements(order + [n]) == Elements(order) + {n}
  {
    var o := order + [n];
    assert o[..|order|] == order;
    forall k | 0 <= k < |order|
      ensures o[..k] == order[..k]
    {
    }
  }

  lemma {:induction false} JustifiedInClosed(rules: RulesMap, order: seq<NonTerminal>, S: set<NonTerminal>, k: nat)
    requires Justified(rules, order) && Closed(rules, S) && k <= |order|
    ensures forall j :: 0 <= j < k ==> order[j] in S
  {
    if k > 0 {
      JustifiedInClosed(rules, order, S, k - 1);
      NullableMonotone(rules[order[k - 1]], Elements(order[..k - 1]), S);
    }
  }

  lemma JustifiedNullable(rules: RulesMap, order: seq<NonTerminal>)
    requires Justified(rules, order)
    ensures forall n :: n in Elements(order) ==> HasNullableRule(rules[n], Elements(order))
  {
    forall n | n in Elements(order)
      ensures HasNullableRule(rules[n], Elements(order))
    {
      var k :| 0 <= k < |order| && order[k] == n;
      NullableMonotone(rules[n], Elements(order[..k]), Elements(order));
    }
  }

  /** The test of the nullable loop: some rule is empty, or some rule is made only
      of nonterminals already known to be nullable. */
  function CanBeEmpty(ruleList: seq<SimplifiedRule>, eps: set<NonTerminal>): (r: bool)
    ensures r <==> HasNullableRule(ruleList, eps)
  {
    (exists j :: 0 <= j < |ruleList| && |ruleList[j].symbols| == 0)
    || (exists j :: 0 <= j < |ruleList| && NullableRule(ruleList[j], eps))
  }

  /** The nullable fixpoint: passes over the remaining entries until a pass finds
      nothing new. */
  method ComputeEpsilons(rules: RulesMap) returns (eps: set<NonTerminal>)
    ensures eps <= rules.Keys
    ensures forall n :: n in rules ==> (n in eps <==> HasNullableRule(rules[n], eps))
    ensures forall S :: Closed(rules, S) ==> eps <= S
  {
    eps := {};
    var changed := true;
    var leftRules := rules;
    ghost var order: seq<NonTerminal> := [];
    while changed
      invariant eps == Elements(order) && Justified(rules, order)
      invariant leftRules.Keys == rules.Keys - eps
      invariant forall n :: n in leftRules ==> leftRules[n] == rules[n]
      invariant !changed ==> forall n :: n in leftRules ==> !HasNullableRule(rules[n], eps)
      decreases leftRules.Keys, changed
    {
      eps, leftRules, changed, order := NullablePass(rules, eps, leftRules, order);
    }
    forall S | Closed(rules, S)
      ensures eps <= S
    {
      JustifiedInClosed(rules, order, S, |order|);
    }
    JustifiedNullable(rules, order);
  }

  /** One pass of the nullable loop over the remaining entries, in the hash map's
      order (any order is allowed): an entry with an empty rule, or with a rule made
      only of nonterminals known to be nullable, is removed and its key added. */
  method NullablePass(rules: RulesMap, eps: set<NonTerminal>, leftRules: RulesMap, ghost order: seq<NonTerminal>)
      returns (eps': set<NonTerminal>, leftRules': RulesMap, changed: bool, ghost order': seq<NonTerminal>)
    requires eps == Elements(order) && Justified(rules, order)
    requires leftRules.Keys == rules.Keys - eps
    requires forall n :: n in leftRules ==> leftRules[n] == rules[n]
    ensures eps' == Elements(order') && Justified(rules, order')
    ensures forall n :: n in leftRules' <==> n in rules && n !in eps'
    ensures forall n :: n in leftRules' ==> leftRules'[n] == rules[n]
    ensures changed ==> leftRules'.Keys < leftRules.Keys
    ensures !changed ==> leftRules' == leftRules && eps' == eps
    ensures !changed ==> forall n :: n in leftRules ==> !HasNullableRule(rules[n], eps)
  {
    eps', leftRules', changed, order' := eps, leftRules, false, order;
    var pending := leftRules.Keys;
    ghost var removed := NonTerminal([]);
    while pending != {}
      invariant forall n :: n in pending ==> n in leftRules'
      invariant forall n :: n in leftRules' ==> n in leftRules
      invariant eps' == Elements(order') && Justified(rules, order')
      invariant forall n :: n in leftRules' <==> n in rules && n !in eps'
      invariant forall n :: n in leftRules' ==> leftRules'[n] == rules[n]
      invariant changed ==> removed in leftRules.Keys && removed !in leftRules'.Keys
      invariant !changed ==> leftRules' == leftRules && eps' == eps
      invariant !changed ==> NoneNullable(rules, leftRules.Keys - pending, eps)
      decreases pending
    {
      var nonTerminal :| nonTerminal in pending;
      pending := pending - {nonTerminal};
      var ruleList := leftRules'[nonTerminal];
      if nonTerminal !in eps' {
        if CanBeEmpty(ruleList, eps') {
          JustifiedSnoc(rules, order', nonTerminal);
          changed := true;
          removed := nonTerminal;
          eps' := eps' + {nonTerminal};
          order' := order' + [nonTerminal];
          leftRules' := leftRules' - {nonTerminal};
        }
      }
    }
  }

  /** No key of the set has a nullable rule. */
  ghost predicate NoneNullable(rules: RulesMap, keys: set<NonTerminal>, eps: set<NonTerminal>)
  {
    forall n :: n in keys && n in rules ==> !HasNullableRule(rules[n], eps)
  }

  // ===========================================================================
  // FIRST sets and left recursion (the second part of `init`)

  predicate NullableNT(s: Symbol, eps: set<NonTerminal>)
  {
    s.NT? && s.nonTerminal in eps
  }

  /** How many leading symbols the FIRST scan of a rule reads: up to and including
      the first symbol that is not a nullable nonterminal, or all of them. */
  function ScanLength(syms: seq<Symbol>, eps: set<NonTerminal>): (r: nat)
    ensures r <= |syms|
  {
    if syms == [] then 0
    else if NullableNT(syms[0], eps) then 1 + ScanLength(syms[1..], eps)
    else 1
  }

  /** The scan reads every symbol before the last one it reads, and those are all
      nullable nonterminals; when it stops early, the last symbol it reads is not one. */
  lemma {:induction false} ScanLengthFacts(syms: seq<Symbol>, eps: set<NonTerminal>)
    ensures |syms| > 0 ==> ScanLength(syms, eps) > 0
    ensures forall q :: 0 <= q < ScanLength(syms, eps) - 1 ==> NullableNT(syms[q], eps)
    ensures ScanLength(syms, eps) < |syms| ==> !NullableNT(syms[ScanLength(syms, eps) - 1], eps)
  {
    if syms != [] && NullableNT(syms[0], eps) {
      ScanLengthFacts(syms[1..], eps);
      assert forall q :: 1 <= q < |syms| ==> syms[q] == syms[1..][q - 1];
    }
  }

  /** The scan reads past every nullable nonterminal of a nullable prefix and stops
      right after the first symbol that is not one. */
  lemma ScanLengthAfterPrefix(syms: seq<Symbol>, eps: set<NonTerminal>, p: nat)
    requires p < |syms| && forall q :: 0 <= q < p ==> NullableNT(syms[q], eps)
    ensures p < ScanLength(syms, eps)
    ensures !NullableNT(syms[p], eps) ==> ScanLength(syms, eps) == p + 1
  {
    ScanLengthFacts(syms, eps);
  }

  lemma ScanLengthAllNullable(syms: seq<Symbol>, eps: set<NonTerminal>)
    requires forall q :: 0 <= q < |syms| ==> NullableNT(syms[q], eps)
    ensures ScanLength(syms, eps) == |syms|
  {
    ScanLengthFacts(syms, eps);
  }

  /** One step of the scan: a nullable nonterminal lets it go on, anything else ends it. */
  lemma ScanLengthStep(syms: seq<Symbol>, eps: set<NonTerminal>, p: nat)
    requires p < |syms|
    ensures ScanLength(syms[p..], eps) == if NullableNT(syms[p], eps) then 1 + ScanLength(syms[p + 1..], eps) else 1
  {
    assert syms[p..][1..] == syms[p + 1..];
  }

  type FirstMap = map<NonTerminal, FirstCharacter>

  /** What one scanned symbol adds to the accumulated set. EndOfFile adds nothing;
      a nonterminal adds its own FIRST set. */
  function Step(acc: FirstCharacter, s: Symbol, firsts: FirstMap): FirstCharacter
  {
    match s
    case Terminal(_) => Plus(acc, TerminalFirst(s))
    case Special(_, _) => Plus(acc, SpecialFirst(s))
    case EndOfFile => acc
    case NT(m) => if m in firsts then Plus(acc, firsts[m]) else acc
  }

  /** The left fold of Step over the symbols, from the default whitelist. */
  function Accumulate(syms: seq<Symbol>, firsts: FirstMap): FirstCharacter
  {
    if syms == [] then EmptyWhiteList()
    else Step(Accumulate(syms[..|syms| - 1], firsts), syms[|syms| - 1], firsts)
  }

  lemma AccumulateSnoc(syms: seq<Symbol>, p: nat, firsts: FirstMap)
    requires p < |syms|
    ensures Accumulate(syms[..p + 1], firsts) == Step(Accumulate(syms[..p], firsts), syms[p], firsts)
  {
    assert syms[..p + 1][..p] == syms[..p];
  }

  /** The FIRST set of a rule: the fold over the scanned symbols. */
  function RuleFirst(rule: SimplifiedRule, firsts: FirstMap, eps: set<NonTerminal>): FirstCharacter
  {
    Accumulate(rule.symbols[..ScanLength(rule.symbols, eps)], firsts)
  }

  /** The FIRST set of a nonterminal: the fold of `+` over its rules' sets. */
  function RulesFirst(rs: seq<SimplifiedRule>, firsts: FirstMap, eps: set<NonTerminal>): FirstCharacter
  {
    if rs == [] then EmptyWhiteList()
    else Plus(RulesFirst(rs[..|rs| - 1], firsts, eps), RuleFirst(rs[|rs| - 1], firsts, eps))
  }

  lemma RulesFirstSnoc(rs: seq<SimplifiedRule>, j: nat, firsts: FirstMap, eps: set<NonTerminal>)
    requires j < |rs|
    ensures RulesFirst(rs[..j + 1], firsts, eps) == Plus(RulesFirst(rs[..j], firsts, eps), RuleFirst(rs[j], firsts, eps))
  {
    assert rs[..j + 1][..j] == rs[..j];
  }

  /** The look-ahead c can start the symbol s. */
  predicate Admits(s: Symbol, firsts: FirstMap, c: Option<char>)
  {
    match s
    case Terminal(v) => c == Some(v[0])
    case Special(_, f) => f.accepts(c)
    case EndOfFile => false
    case NT(m) => m in firsts && Suitable(firsts[m], c)
  }

  lemma {:induction false} AccumulateMeaning(syms: seq<Symbol>, firsts: FirstMap, c: Option<char>)
    ensures Suitable(Accumulate(syms, firsts), c) <==> exists q :: 0 <= q < |syms| && Admits(syms[q], firsts, c)
  {
    if syms != [] {
      var init := syms[..|syms| - 1];
      AccumulateMeaning(init, firsts, c);
      if exists q :: 0 <= q < |syms| && Admits(syms[q], firsts, c) {
        var q :| 0 <= q < |syms| && Admits(syms[q], firsts, c);
        if q < |init| {
          assert Admits(init[q], firsts, c);
        }
      }
      if exists q :: 0 <= q < |init| && Admits(init[q], firsts, c) {
        var q :| 0 <= q < |init| && Admits(init[q], firsts, c);
        assert Admits(syms[q], firsts, c);
      }
    }
  }

  /** A rule's FIRST set admits c exactly when one of the scanned symbols admits c. */
  lemma RuleFirstMeaning(rule: SimplifiedRule, firsts: FirstMap, eps: set<NonTerminal>, c: Option<char>)
    ensures Suitable(RuleFirst(rule, firsts, eps), c)
      <==> exists q :: 0 <= q < ScanLength(rule.symbols, eps) && Admits(rule.symbols[q], firsts, c)
  {
    var scanned := rule.symbols[..ScanLength(rule.symbols, eps)];
    AccumulateMeaning(scanned, firsts, c);
    assert forall q :: 0 <= q < |scanned| ==> scanned[q] == rule.symbols[q];
  }

  /** A nonterminal's FIRST set admits c exactly when one of its rules' sets does. */
  lemma {:induction false} RulesFirstMeaning(rs: seq<SimplifiedRule>, firsts: FirstMap, eps: set<NonTerminal>, c: Option<char>)
    ensures Suitable(RulesFirst(rs, firsts, eps), c)
      <==> exists j :: 0 <= j < |rs| && Suitable(RuleFirst(rs[j], firsts, eps), c)
  {
    if rs != [] {
      var init := rs[..|rs| - 1];
      RulesFirstMeaning(init, firsts, eps, c);
      if exists j :: 0 <= j < |rs| && Suitable(RuleFirst(rs[j], firsts, eps), c) {
        var j :| 0 <= j < |rs| && Suitable(RuleFirst(rs[j], firsts, eps), c);
        if j < |init| {
          assert Suitable(RuleFirst(init[j], firsts, eps), c);
        }
      }
      if exists j :: 0 <= j < |init| && Suitable(RuleFirst(init[j], firsts, eps), c) {
        var j :| 0 <= j < |init| && Suitable(RuleFirst(init[j], firsts, eps), c);
        assert Suitable(RuleFirst(rs[j], firsts, eps), c);
      }
    }
  }

  /** b keeps every entry of a. */
  ghost predicate Agrees<K, V>(a: map<K, V>, b: map<K, V>)
  {
    forall k :: k in a ==> k in b && b[k] == a[k]
  }

  /** Every nonterminal among the symbols has a FIRST set already. */
  ghost predicate Known(syms: seq<Symbol>, firsts: FirstMap)
  {
    forall q :: 0 <= q < |syms| && syms[q].NT? ==> syms[q].nonTerminal in firsts
  }

  /** The nonterminals the scan of the rule reads all have a FIRST set already. */
  ghost predicate RuleReady(rule: SimplifiedRule, eps: set<NonTerminal>, firsts: FirstMap)
  {
    Known(rule.symbols[..ScanLength(rule.symbols, eps)], firsts)
  }

  /** Every rule of the list is ready. */
  ghost predicate AllReady(rs: seq<SimplifiedRule>, eps: set<NonTerminal>, firsts: FirstMap)
  {
    forall j :: 0 <= j < |rs| ==> RuleReady(rs[j], eps, firsts)
  }

  lemma KnownSnoc(syms: seq<Symbol>, p: nat, firsts: FirstMap)
    requires p < |syms| && Known(syms[..p], firsts)
    requires syms[p].NT? ==> syms[p].nonTerminal in firsts
    ensures Known(syms[..p + 1], firsts)
  {
    assert forall q :: 0 <= q < p ==> syms[..p + 1][q] == syms[..p][q];
  }

  lemma AllReadySnoc(rs: seq<SimplifiedRule>, j: nat, eps: set<NonTerminal>, firsts: FirstMap)
    requires j < |rs| && AllReady(rs[..j], eps, firsts) && RuleReady(rs[j], eps, firsts)
    ensures AllReady(rs[..j + 1], eps, firsts)
  {
    assert forall i :: 0 <= i < j ==> rs[..j + 1][i] == rs[..j][i];
  }

  lemma {:induction false} AccumulateFrame(syms: seq<Symbol>, a: FirstMap, b: FirstMap)
    requires Agrees(a, b) && Known(syms, a)
    ensures Accumulate(syms, a) == Accumulate(syms, b) && Known(syms, b)
  {
    if syms != [] {
      var init := syms[..|syms| - 1];
      assert forall q :: 0 <= q < |init| ==> init[q] == syms[q];
      AccumulateFrame(init, a, b);
    }
  }

  lemma RuleFirstFrame(rule: SimplifiedRule, eps: set<NonTerminal>, a: FirstMap, b: FirstMap)
    requires Agrees(a, b) && RuleReady(rule, eps, a)
    ensures RuleFirst(rule, a, eps) == RuleFirst(rule, b, eps) && RuleReady(rule, eps, b)
  {
    AccumulateFrame(rule.symbols[..ScanLength(rule.symbols, eps)], a, b);
  }

  lemma {:induction false} RulesFirstFrame(rs: seq<SimplifiedRule>, eps: set<NonTerminal>, a: FirstMap, b: FirstMap)
    requires Agrees(a, b) && AllReady(rs, eps, a)
    ensures RulesFirst(rs, a, eps) == RulesFirst(rs, b, eps) && AllReady(rs, eps, b)
  {
    if rs != [] {
      var init := rs[..|rs| - 1];
      assert forall j :: 0 <= j < |init| ==> init[j] == rs[j];
      RulesFirstFrame(init, eps, a, b);
      RuleFirstFrame(rs[|rs| - 1], eps, a, b);
      forall j | 0 <= j < |rs|
        ensures RuleReady(rs[j], eps, b)
      {
        if j < |init| {
          assert rs[j] == init[j];
        }
      }
    }
  }

  /** The scan of some rule of a reads b: a cannot be resolved before b. */
  ghost predicate LeftDep(rules: RulesMap, eps: set<NonTerminal>, a: NonTerminal, b: NonTerminal)
  {
    a in rules
    && exists j, q :: 0 <= j < |rules[a]| && 0 <= q < ScanLength(rules[a][j].symbols, eps) && rules[a][j].symbols[q] == NT(b)
  }

  ghost predicate LeftPath(rules: RulesMap, eps: set<NonTerminal>, path: seq<NonTerminal>)
  {
    forall i :: 0 <= i < |path| - 1 ==> LeftDep(rules, eps, path[i], path[i + 1])
  }

  /** A missing rule reached by the scans: a path of left dependencies from a rule key
      to m, which has no rules. */
  ghost predicate MissingReached(rules: RulesMap, eps: set<NonTerminal>, path: seq<NonTerminal>, m: NonTerminal)
  {
    |path| >= 1 && path[0] in rules && path[|path| - 1] == m && m !in rules && LeftPath(rules, eps, path)
  }

  /** A left-recursive cycle: a path of left dependencies from n back to n. */
  ghost predicate LeftCycle(rules: RulesMap, eps: set<NonTerminal>, path: seq<NonTerminal>, n: NonTerminal)
  {
    |path| >= 2 && path[0] == n && path[|path| - 1] == n && LeftPath(rules, eps, path)
  }

  /** Every finished nonterminal is a rule key with a rank, and every nonterminal
      the scans of its rules read is finished with a smaller rank: the FIRST sets are
      computed bottom-up, and no left-recursive cycle goes through them. */
  ghost predicate Ranked(rules: RulesMap, eps: set<NonTerminal>, firsts: FirstMap, rank: map<NonTerminal, nat>, nextRank: nat)
  {
    (forall k :: k in rank ==> k in firsts && rank[k] < nextRank)
    && (forall k {:trigger Finished(firsts, k)} :: Finished(firsts, k) ==> RankedBelow(rules, eps, rank, k))
  }

  /** k is a rule key with a rank, and the nonterminals the scans of its rules read
      have smaller ranks. */
  ghost predicate RankedBelow(rules: RulesMap, eps: set<NonTerminal>, rank: map<NonTerminal, nat>, k: NonTerminal)
  {
    k in rules && k in rank
    && forall j, q :: 0 <= j < |rules[k]| && 0 <= q < ScanLength(rules[k][j].symbols, eps) && rules[k][j].symbols[q].NT?
         ==> rules[k][j].symbols[q].nonTerminal in rank && rank[rules[k][j].symbols[q].nonTerminal] < rank[k]
  }

  /** k has a FIRST set. Used as the trigger of Equations, so that the equation of a
      nonterminal is only consulted where a proof names that nonterminal. */
  ghost predicate Finished(firsts: FirstMap, k: NonTerminal)
  {
    k in firsts
  }

  /** The FIRST set of every finished nonterminal is the `+` of its rules' sets. */
  ghost predicate Equations(rules: RulesMap, eps: set<NonTerminal>, firsts: FirstMap)
  {
    forall k {:trigger Finished(firsts, k)} :: Finished(firsts, k) ==> k in rules && firsts[k] == RulesFirst(rules[k], firsts, eps)
  }

  ghost predicate Solved(rules: RulesMap, eps: set<NonTerminal>, firsts: FirstMap, rank: map<NonTerminal, nat>, nextRank: nat)
  {
    Ranked(rules, eps, firsts, rank, nextRank) && Equations(rules, eps, firsts)
  }

  /** The rule has a recorded FIRST set; the trigger of Recorded. */
  ghost predicate IsRecorded(ruleFirsts: map<SimplifiedRule, FirstCharacter>, r: SimplifiedRule)
  {
    r in ruleFirsts
  }

  /** Every recorded rule set is the FIRST set of its rule, and the rules of every
      finished nonterminal are recorded. */
  ghost predicate Recorded(rules: RulesMap, eps: set<NonTerminal>, firsts: FirstMap, ruleFirsts: map<SimplifiedRule, FirstCharacter>)
  {
    (forall r {:trigger IsRecorded(ruleFirsts, r)} :: r in ruleFirsts && IsRecorded(ruleFirsts, r)
       ==> RuleReady(r, eps, firsts) && ruleFirsts[r] == RuleFirst(r, firsts, eps))
    && (forall k {:trigger Finished(firsts, k)} :: Finished(firsts, k) ==> RulesRecorded(rules, ruleFirsts, k))
  }

  /** k is a rule key and every rule of k has a recorded FIRST set. */
  ghost predicate RulesRecorded(rules: RulesMap, ruleFirsts: map<SimplifiedRule, FirstCharacter>, k: NonTerminal)
  {
    k in rules && AllRecorded(rules[k], ruleFirsts)
  }

  /** Every rule of the list has a recorded FIRST set. */
  ghost predicate AllRecorded(rs: seq<SimplifiedRule>, ruleFirsts: map<SimplifiedRule, FirstCharacter>)
  {
    forall j :: 0 <= j < |rs| ==> rs[j] in ruleFirsts
  }

  lemma AllRecordedSnoc(rs: seq<SimplifiedRule>, j: nat, a: map<SimplifiedRule, FirstCharacter>, b: map<SimplifiedRule, FirstCharacter>)
    requires j < |rs| && AllRecorded(rs[..j], a) && rs[j] in b
    requires forall r :: r in a ==> r in b
    ensures AllRecorded(rs[..j + 1], b)
  {
    assert forall i :: 0 <= i < j ==> rs[..j + 1][i] == rs[..j][i];
  }

  lemma RankedReady(rules: RulesMap, eps: set<NonTerminal>, firsts: FirstMap, rank: map<NonTerminal, nat>, nextRank: nat, k: NonTerminal)
    requires Ranked(rules, eps, firsts, rank, nextRank) && k in firsts
    ensures k in rules && AllReady(rules[k], eps, firsts)
  {
    assert Finished(firsts, k);
    forall j | 0 <= j < |rules[k]|
      ensures RuleReady(rules[k][j], eps, firsts)
    {
      var syms := rules[k][j].symbols;
      var scanned := syms[..ScanLength(syms, eps)];
      forall q | 0 <= q < |scanned| && scanned[q].NT?
        ensures scanned[q].nonTerminal in firsts
      {
        assert scanned[q] == syms[q];
      }
    }
  }

  lemma EquationsExtend(rules: RulesMap, eps: set<NonTerminal>, firsts: FirstMap, rank: map<NonTerminal, nat>, nextRank: nat, n: NonTerminal)
    requires Ranked(rules, eps, firsts, rank, nextRank) && Equations(rules, eps, firsts)
    requires n in rules && n !in firsts && AllReady(rules[n], eps, firsts)
    ensures Equations(rules, eps, firsts[n := RulesFirst(rules[n], firsts, eps)])
  {
    var firsts' := firsts[n := RulesFirst(rules[n], firsts, eps)];
    assert Agrees(firsts, firsts');
    RulesFirstFrame(rules[n], eps, firsts, firsts');
    forall k | Finished(firsts', k)
      ensures k in rules && firsts'[k] == RulesFirst(rules[k], firsts', eps)
    {
      if k != n {
        assert Finished(firsts, k);
        RankedReady(rules, eps, firsts, rank, nextRank, k);
        RulesFirstFrame(rules[k], eps, firsts, firsts');
      }
    }
  }

  lemma RankedExtend(rules: RulesMap, eps: set<NonTerminal>, firsts: FirstMap, rank: map<NonTerminal, nat>, nextRank: nat,
                     n: NonTerminal, v: FirstCharacter)
    requires Ranked(rules, eps, firsts, rank, nextRank)
    requires n in rules && n !in firsts && AllReady(rules[n], eps, firsts)
    ensures Ranked(rules, eps, firsts[n := v], rank[n := nextRank], nextRank + 1)
  {
    var firsts' := firsts[n := v];
    var rank' := rank[n := nextRank];
    forall k | Finished(firsts', k)
      ensures RankedBelow(rules, eps, rank', k)
    {
      if k == n {
        forall j, q | 0 <= j < |rules[n]| && 0 <= q < ScanLength(rules[n][j].symbols, eps) && rules[n][j].symbols[q].NT?
          ensures rules[n][j].symbols[q].nonTerminal in rank' && rank'[rules[n][j].symbols[q].nonTerminal] < rank'[n]
        {
          var syms := rules[n][j].symbols;
          assert RuleReady(rules[n][j], eps, firsts);
          assert syms[..ScanLength(syms, eps)][q] == syms[q];
          assert Finished(firsts, syms[q].nonTerminal);
        }
      } else {
        assert Finished(firsts, k);
      }
    }
  }

  lemma RecordedExtend(rules: RulesMap, eps: set<NonTerminal>, firsts: FirstMap, ruleFirsts: map<SimplifiedRule, FirstCharacter>,
                       n: NonTerminal, v: FirstCharacter)
    requires Recorded(rules, eps, firsts, ruleFirsts)
    requires RulesRecorded(rules, ruleFirsts, n)
    ensures Recorded(rules, eps, firsts[n := v], ruleFirsts) || n in firsts
  {
    if n !in firsts {
      var firsts' := firsts[n := v];
      forall r | r in ruleFirsts && IsRecorded(ruleFirsts, r)
        ensures RuleReady(r, eps, firsts') && ruleFirsts[r] == RuleFirst(r, firsts', eps)
      {
        RuleFirstFrame(r, eps, firsts, firsts');
      }
      forall k | Finished(firsts', k)
        ensures RulesRecorded(rules, ruleFirsts, k)
      {
        if k != n {
          assert Finished(firsts, k);
        }
      }
    }
  }

  /** Recording the FIRST set of a rule whose scan reads only finished nonterminals. */
  lemma RecordRule(rules: RulesMap, eps: set<NonTerminal>, firsts: FirstMap, ruleFirsts: map<SimplifiedRule, FirstCharacter>,
                   rule: SimplifiedRule)
    requires Recorded(rules, eps, firsts, ruleFirsts) && RuleReady(rule, eps, firsts)
    ensures Recorded(rules, eps, firsts, ruleFirsts[rule := RuleFirst(rule, firsts, eps)])
  {
    var ruleFirsts' := ruleFirsts[rule := RuleFirst(rule, firsts, eps)];
    forall r | r in ruleFirsts' && IsRecorded(ruleFirsts', r)
      ensures RuleReady(r, eps, firsts) && ruleFirsts'[r] == RuleFirst(r, firsts, eps)
    {
      if r != rule {
        assert IsRecorded(ruleFirsts, r);
      }
    }
  }

  /** b extends a: the FIRST sets and ranks of a are kept, the recorded rules only
      grow, and no nonterminal of inner is newly finished. */
  ghost predicate Grew(a: FirstMap, aRank: map<NonTerminal, nat>, aRules: map<SimplifiedRule, FirstCharacter>,
                       b: FirstMap, bRank: map<NonTerminal, nat>, bRules: map<SimplifiedRule, FirstCharacter>, inner: set<NonTerminal>)
  {
    Agrees(a, b) && Agrees(aRank, bRank) && (forall r :: r in aRules ==> r in bRules)
    && forall k :: k in b && k !in a ==> k !in inner
  }

  lemma GrewTrans(a: FirstMap, aRank: map<NonTerminal, nat>, aRules: map<SimplifiedRule, FirstCharacter>,
                  b: FirstMap, bRank: map<NonTerminal, nat>, bRules: map<SimplifiedRule, FirstCharacter>,
                  c: FirstMap, cRank: map<NonTerminal, nat>, cRules: map<SimplifiedRule, FirstCharacter>, inner: set<NonTerminal>)
    requires Grew(a, aRank, aRules, b, bRank, bRules, inner) && Grew(b, bRank, bRules, c, cRank, cRules, inner)
    ensures Grew(a, aRank, aRules, c, cRank, cRules, inner)
  {
  }

  /** The FIRST pass over a simplified grammar: the memo tables of `init`. */
  class FirstPass {
    const rules: RulesMap
    const epsilons: set<NonTerminal>
    var firstsForRules: map<SimplifiedRule, FirstCharacter>
    var firstsForNonTerminals: FirstMap
    ghost var rank: map<NonTerminal, nat>
    ghost var nextRank: nat

    ghost predicate Valid()
      reads this
    {
      Solved(rules, epsilons, firstsForNonTerminals, rank, nextRank)
      && Recorded(rules, epsilons, firstsForNonTerminals, firstsForRules)
    }

    constructor (rules: RulesMap, epsilons: set<NonTerminal>)
      ensures Valid() && this.rules == rules && this.epsilons == epsilons
      ensures firstsForRules == map[] && firstsForNonTerminals == map[]
    {
      this.rules := rules;
      this.epsilons := epsilons;
      firstsForRules := map[];
      firstsForNonTerminals := map[];
      rank := map[];
      nextRank := 0;
    }

    /** `processNonTerminal`: compute the FIRST set of n and of everything its scans
        read. inProcess holds the nonterminals whose computation is under way; stack
        lists them in call order and leads to n by left dependencies. */
    method ProcessNonTerminal(inProcess: set<NonTerminal>, ghost stack: seq<NonTerminal>, n: NonTerminal)
        returns (err: Option<GrammarError>, ghost trail: seq<NonTerminal>)
      requires Valid()
      requires inProcess == Elements(stack) && LeftPath(rules, epsilons, stack + [n])
      requires (stack + [n])[0] in rules
      requires forall k :: k in inProcess ==> k !in firstsForNonTerminals
      modifies this
      decreases rules.Keys - inProcess, 1
      ensures err.None? ==> Valid() && n in firstsForNonTerminals
      ensures err.None? ==> Grew(old(firstsForNonTerminals), old(rank), old(firstsForRules),
                                 firstsForNonTerminals, rank, firstsForRules, inProcess)
      ensures err.Some? ==> err.value.LeftRecursion? || err.value.NoRuleFound?
      ensures err.Some? && err.value.LeftRecursion? ==> LeftCycle(rules, epsilons, trail, err.value.nonTerminal)
      ensures err.Some? && err.value.NoRuleFound? ==> MissingReached(rules, epsilons, trail, err.value.nonTerminal)
    {
      trail := [];
      if n in inProcess {
        ghost var k :| 0 <= k < |stack| && stack[k] == n;
        trail := stack[k..] + [n];
        assert trail == (stack + [n])[k..];
        return Some(LeftRecursion(n)), trail;
      }
      if n in firstsForNonTerminals {
        return None, trail;
      }
      var inner := inProcess + {n};
      ghost var innerStack := stack + [n];
      assert inner == Elements(innerStack);
      if n !in rules {
        return Some(NoRuleFound(n)), stack + [n];
      }
      var firstForNonTerminal;
      firstForNonTerminal, err, trail := ScanRules(inner, innerStack, n);
      if err.Some? {
        return;
      }
      EquationsExtend(rules, epsilons, firstsForNonTerminals, rank, nextRank, n);
      RankedExtend(rules, epsilons, firstsForNonTerminals, rank, nextRank, n, firstForNonTerminal);
      RecordedExtend(rules, epsilons, firstsForNonTerminals, firstsForRules, n, firstForNonTerminal);
      firstsForNonTerminals := firstsForNonTerminals[n := firstForNonTerminal];
      rank := rank[n := nextRank];
      nextRank := nextRank + 1;
    }

    /** The loop of `processNonTerminal` over the rules of n: records the FIRST set of
        every rule and returns their `+`. */
    method ScanRules(inner: set<NonTerminal>, ghost innerStack: seq<NonTerminal>, n: NonTerminal)
        returns (firstForNonTerminal: FirstCharacter, err: Option<GrammarError>, ghost trail: seq<NonTerminal>)
      requires Valid()
      requires n in rules
      requires inner == Elements(innerStack) && LeftPath(rules, epsilons, innerStack)
      requires |innerStack| > 0 && innerStack[0] in rules && innerStack[|innerStack| - 1] == n
      requires forall k :: k in inner ==> k !in firstsForNonTerminals
      modifies this
      decreases rules.Keys - inner, 4
      ensures err.None? ==> Valid() && n !in firstsForNonTerminals
      ensures err.None? ==> Grew(old(firstsForNonTerminals), old(rank), old(firstsForRules),
                                 firstsForNonTerminals, rank, firstsForRules, inner)
      ensures err.None? ==> AllReady(rules[n], epsilons, firstsForNonTerminals) && RulesRecorded(rules, firstsForRules, n)
      ensures err.None? ==> firstForNonTerminal == RulesFirst(rules[n], firstsForNonTerminals, epsilons)
      ensures err.Some? ==> err.value.LeftRecursion? || err.value.NoRuleFound?
      ensures err.Some? && err.value.LeftRecursion? ==> LeftCycle(rules, epsilons, trail, err.value.nonTerminal)
      ensures err.Some? && err.value.NoRuleFound? ==> MissingReached(rules, epsilons, trail, err.value.nonTerminal)
    {
      trail := [];
      var ruleList := rules[n];
      firstForNonTerminal := EmptyWhiteList();
      var j := 0;
      err := None;
      while j < |ruleList|
        invariant 0 <= j <= |ruleList|
        invariant Valid() && n !in firstsForNonTerminals && err.None?
        invariant Grew(old(firstsForNonTerminals), old(rank), old(firstsForRules),
                       firstsForNonTerminals, rank, firstsForRules, inner)
        invariant AllReady(ruleList[..j], epsilons, firstsForNonTerminals)
        invariant AllRecorded(ruleList[..j], firstsForRules)
        invariant firstForNonTerminal == RulesFirst(ruleList[..j], firstsForNonTerminals, epsilons)
      {
        ghost var firstsBefore, rankBefore, rulesBefore := firstsForNonTerminals, rank, firstsForRules;
        var first;
        first, err, trail := ScanRule(inner, innerStack, n, j);
        if err.Some? {
          return;
        }
        GrewTrans(old(firstsForNonTerminals), old(rank), old(firstsForRules), firstsBefore, rankBefore, rulesBefore,
                  firstsForNonTerminals, rank, firstsForRules, inner);
        RulesFirstFrame(ruleList[..j], epsilons, firstsBefore, firstsForNonTerminals);
        RulesFirstSnoc(ruleList, j, firstsForNonTerminals, epsilons);
        AllReadySnoc(ruleList, j, epsilons, firstsForNonTerminals);
        AllRecordedSnoc(ruleList, j, rulesBefore, firstsForRules);
        firstForNonTerminal := Plus(firstForNonTerminal, first);
        j := j + 1;
      }
      assert ruleList[..j] == ruleList;
    }

    /** The inner loop of `processNonTerminal` and the recording of its result: the
        FIRST set of rule j of n, after computing the sets of the nonterminals the
        scan reads. */
    method ScanRule(inner: set<NonTerminal>, ghost innerStack: seq<NonTerminal>, n: NonTerminal, j: nat)
        returns (first: FirstCharacter, err: Option<GrammarError>, ghost trail: seq<NonTerminal>)
      requires Valid()
      requires n in rules && j < |rules[n]|
      requires inner == Elements(innerStack) && LeftPath(rules, epsilons, innerStack)
      requires |innerStack| > 0 && innerStack[0] in rules && innerStack[|innerStack| - 1] == n
      requires forall k :: k in inner ==> k !in firstsForNonTerminals
      modifies this
      decreases rules.Keys - inner, 3
      ensures err.None? ==> Valid()
      ensures err.None? ==> Grew(old(firstsForNonTerminals), old(rank), old(firstsForRules),
                                 firstsForNonTerminals, rank, firstsForRules, inner)
      ensures err.None? ==> RuleReady(rules[n][j], epsilons, firstsForNonTerminals)
      ensures err.None? ==> first == RuleFirst(rules[n][j], firstsForNonTerminals, epsilons)
      ensures err.None? ==> rules[n][j] in firstsForRules
      ensures err.Some? ==> err.value.LeftRecursion? || err.value.NoRuleFound?
      ensures err.Some? && err.value.LeftRecursion? ==> LeftCycle(rules, epsilons, trail, err.value.nonTerminal)
      ensures err.Some? && err.value.NoRuleFound? ==> MissingReached(rules, epsilons, trail, err.value.nonTerminal)
    {
      trail := [];
      err := None;
      var syms := rules[n][j].symbols;
      first := EmptyWhiteList();
      var p := 0;
      var finished := false;
      while p < |syms| && !finished
        invariant 0 <= p <= |syms|
        invariant Valid() && err.None?
        invariant Grew(old(firstsForNonTerminals), old(rank), old(firstsForRules),
                       firstsForNonTerminals, rank, firstsForRules, inner)
        invariant finished ==> p == ScanLength(syms, epsilons)
        invariant !finished ==> ScanLength(syms, epsilons) == p + ScanLength(syms[p..], epsilons)
        invariant Known(syms[..p], firstsForNonTerminals)
        invariant first == Accumulate(syms[..p], firstsForNonTerminals)
      {
        ScanLengthStep(syms, epsilons, p);
        ghost var firstsBefore, rankBefore, rulesBefore := firstsForNonTerminals, rank, firstsForRules;
        first, finished, err, trail := ScanSymbol(inner, innerStack, n, j, p, first);
        if err.Some? {
          return;
        }
        GrewTrans(old(firstsForNonTerminals), old(rank), old(firstsForRules), firstsBefore, rankBefore, rulesBefore,
                  firstsForNonTerminals, rank, firstsForRules, inner);
        p := p + 1;
      }
      assert syms[..p] == syms[..ScanLength(syms, epsilons)];
      var rule := rules[n][j];
      RecordRule(rules, epsilons, firstsForNonTerminals, firstsForRules, rule);
      ghost var rulesScanned := firstsForRules;
      firstsForRules := firstsForRules[rule := first];
      assert Grew(firstsForNonTerminals, rank, rulesScanned, firstsForNonTerminals, rank, firstsForRules, inner);
      GrewTrans(old(firstsForNonTerminals), old(rank), old(firstsForRules), firstsForNonTerminals, rank, rulesScanned,
                firstsForNonTerminals, rank, firstsForRules, inner);
    }

    /** One symbol of the scan (the `when (symbol)` of `processNonTerminal`): adds
        what the symbol can start with to first, computing the FIRST set of a
        nonterminal first when it is not known yet; the scan goes on only after a
        nullable nonterminal. */
    method ScanSymbol(inner: set<NonTerminal>, ghost innerStack: seq<NonTerminal>, n: NonTerminal, j: nat, p: nat,
                      first: FirstCharacter)
        returns (first': FirstCharacter, finished: bool, err: Option<GrammarError>, ghost trail: seq<NonTerminal>)
      requires Valid()
      requires n in rules && j < |rules[n]| && p < ScanLength(rules[n][j].symbols, epsilons)
      requires inner == Elements(innerStack) && LeftPath(rules, epsilons, innerStack)
      requires |innerStack| > 0 && innerStack[0] in rules && innerStack[|innerStack| - 1] == n
      requires forall k :: k in inner ==> k !in firstsForNonTerminals
      requires Known(rules[n][j].symbols[..p], firstsForNonTerminals)
      requires first == Accumulate(rules[n][j].symbols[..p], firstsForNonTerminals)
      modifies this
      decreases rules.Keys - inner, 2
      ensures err.None? ==> Valid()
      ensures err.None? ==> Grew(old(firstsForNonTerminals), old(rank), old(firstsForRules),
                                 firstsForNonTerminals, rank, firstsForRules, inner)
      ensures err.None? ==> Known(rules[n][j].symbols[..p + 1], firstsForNonTerminals)
      ensures err.None? ==> first' == Accumulate(rules[n][j].symbols[..p + 1], firstsForNonTerminals)
      ensures err.None? ==> finished == !NullableNT(rules[n][j].symbols[p], epsilons)
      ensures err.Some? ==> err.value.LeftRecursion? || err.value.NoRuleFound?
      ensures err.Some? && err.value.LeftRecursion? ==> LeftCycle(rules, epsilons, trail, err.value.nonTerminal)
      ensures err.Some? && err.value.NoRuleFound? ==> MissingReached(rules, epsilons, trail, err.value.nonTerminal)
    {
      trail := [];
      err := None;
      var syms := rules[n][j].symbols;
      var symbol := syms[p];
      first' := first;
      finished := true;
      match symbol {
        case Terminal(_) =>
          first' := Plus(first, TerminalFirst(symbol));
        case Special(_, _) =>
          first' := Plus(first, SpecialFirst(symbol));
        case EndOfFile =>
        case NT(m) =>
          if m !in firstsForNonTerminals {
            ghost var firstsCall := firstsForNonTerminals;
            assert LeftDep(rules, epsilons, n, m) by {
              assert rules[n][j].symbols[p] == NT(m);
            }
            assert LeftPath(rules, epsilons, innerStack + [m]);
            err, trail := ProcessNonTerminal(inner, innerStack, m);
            if err.Some? {
              return;
            }
            AccumulateFrame(syms[..p], firstsCall, firstsForNonTerminals);
          }
          first' := Plus(first, firstsForNonTerminals[m]);
          finished := m !in epsilons;
      }
      AccumulateSnoc(syms, p, firstsForNonTerminals);
      KnownSnoc(syms, p, firstsForNonTerminals);
    }

    /** The outer loop of the FIRST part of `init`: process some rule key without a
        FIRST set, drop every key that has one now, until none is left. */
    method Run() returns (err: Option<GrammarError>, ghost trail: seq<NonTerminal>)
      requires Valid()
      modifies this
      ensures err.None? ==> Valid() && forall k :: k in rules ==> k in firstsForNonTerminals
      ensures err.Some? ==> err.value.LeftRecursion? || err.value.NoRuleFound?
      ensures err.Some? && err.value.LeftRecursion? ==> LeftCycle(rules, epsilons, trail, err.value.nonTerminal)
      ensures err.Some? && err.value.NoRuleFound? ==> MissingReached(rules, epsilons, trail, err.value.nonTerminal)
    {
      trail := [];
      err := None;
      var leftNonTerminals := rules.Keys;
      while leftNonTerminals != {}
        invariant Valid() && err.None?
        invariant leftNonTerminals <= rules.Keys
        invariant forall k :: k in rules && k !in leftNonTerminals ==> k in firstsForNonTerminals
        decreases leftNonTerminals
      {
        var n :| n in leftNonTerminals;
        assert Elements([]) == {};
        assert LeftPath(rules, epsilons, [] + [n]);
        err, trail := ProcessNonTerminal({}, [], n);
        if err.Some? {
          return;
        }
        leftNonTerminals := set k | k in leftNonTerminals && k !in firstsForNonTerminals;
      }
    }
  }

  /** Along a path of left dependencies from a finished nonterminal, the ranks strictly
      decrease, so the path cannot come back to where it started. */
  lemma {:induction false} RankDecreases(rules: RulesMap, eps: set<NonTerminal>, firsts: FirstMap, rank: map<NonTerminal, nat>,
                                         nextRank: nat, path: seq<NonTerminal>)
    requires Ranked(rules, eps, firsts, rank, nextRank)
    requires |path| >= 2 && LeftPath(rules, eps, path) && path[0] in firsts
    ensures path[0] in rank && path[|path| - 1] in rank && rank[path[|path| - 1]] < rank[path[0]]
    decreases |path|
  {
    var a, b := path[0], path[1];
    assert Finished(firsts, a);
    assert LeftDep(rules, eps, a, b);
    var j, q :| 0 <= j < |rules[a]| && 0 <= q < ScanLength(rules[a][j].symbols, eps) && rules[a][j].symbols[q] == NT(b);
    assert rules[a][j].symbols[q].NT?;
    if |path| > 2 {
      var rest := path[1..];
      forall i | 0 <= i < |rest| - 1
        ensures LeftDep(rules, eps, rest[i], rest[i + 1])
      {
        assert rest[i] == path[i + 1] && rest[i + 1] == path[i + 2];
      }
      RankDecreases(rules, eps, firsts, rank, nextRank, rest);
      assert rest[|rest| - 1] == path[|path| - 1];
    }
  }

  /** No left-recursive cycle goes through a nonterminal whose FIRST set is known. */
  lemma NoCycleThroughFinished(rules: RulesMap, eps: set<NonTerminal>, firsts: FirstMap, rank: map<NonTerminal, nat>,
                               nextRank: nat, path: seq<NonTerminal>, n: NonTerminal)
    requires Ranked(rules, eps, firsts, rank, nextRank) && n in firsts
    ensures !LeftCycle(rules, eps, path, n)
  {
    if LeftCycle(rules, eps, path, n) {
      RankDecreases(rules, eps, firsts, rank, nextRank, path);
    }
  }

  // ===========================================================================
  // The simplified grammar

  /** eps is the set of nullable nonterminals: the least set of rule keys closed under
      the nullable rule. */
  ghost predicate IsNullableSet(rules: RulesMap, eps: set<NonTerminal>)
  {
    eps <= rules.Keys
    && (forall n :: n in rules ==> (n in eps <==> HasNullableRule(rules[n], eps)))
    && forall S :: Closed(rules, S) ==> eps <= S
  }

  /** There is only one such set. */
  lemma NullableSetUnique(rules: RulesMap, a: set<NonTerminal>, b: set<NonTerminal>)
    requires IsNullableSet(rules, a) && IsNullableSet(rules, b)
    ensures a == b
  {
    assert Closed(rules, a);
    assert Closed(rules, b);
  }

  /** A SimplifiedGrammar: its rules, its nullable nonterminals and the FIRST set of
      every rule, as `init` leaves them. */
  datatype SimplifiedGrammar = SimplifiedGrammar(
    rules: RulesMap,
    epsilons: set<NonTerminal>,
    firstChars: map<SimplifiedRule, FirstCharacter>)
  {
    /** `getPossibleRules`: the rules of n whose FIRST set admits c, in rule order, then
        the epsilon rule when n is nullable. */
    function GetPossibleRules(n: NonTerminal, c: Option<char>): seq<SimplifiedRule>
    {
      (if n in rules then FilterSuitable(rules[n], firstChars, c) else [])
      + (if n in epsilons then [SimplifiedRule([])] else [])
    }
  }

  /** The filter of `getPossibleRules`: a rule without a recorded set is dropped. */
  function FilterSuitable(rs: seq<SimplifiedRule>, firstChars: map<SimplifiedRule, FirstCharacter>, c: Option<char>)
    : seq<SimplifiedRule>
  {
    if rs == [] then []
    else (if rs[0] in firstChars && Suitable(firstChars[rs[0]], c) then [rs[0]] else [])
         + FilterSuitable(rs[1..], firstChars, c)
  }

  /** The filter keeps exactly the rules with a recorded set that admits c. */
  lemma {:induction false} FilterSuitableMembers(rs: seq<SimplifiedRule>, firstChars: map<SimplifiedRule, FirstCharacter>,
                                                 c: Option<char>, r: SimplifiedRule)
    ensures r in FilterSuitable(rs, firstChars, c) <==> r in rs && r in firstChars && Suitable(firstChars[r], c)
  {
    if rs != [] {
      FilterSuitableMembers(rs[1..], firstChars, c, r);
      assert rs == [rs[0]] + rs[1..];
    }
  }

  /** The filter keeps the order of the rules: it distributes over concatenation. */
  lemma {:induction false} FilterSuitableAppend(a: seq<SimplifiedRule>, b: seq<SimplifiedRule>,
                                                firstChars: map<SimplifiedRule, FirstCharacter>, c: Option<char>)
    ensures FilterSuitable(a + b, firstChars, c) == FilterSuitable(a, firstChars, c) + FilterSuitable(b, firstChars, c)
  {
    if a != [] {
      assert (a + b)[1..] == a[1..] + b;
      FilterSuitableAppend(a[1..], b, firstChars, c);
    } else {
      assert a + b == b;
    }
  }

  /** What `init` establishes, given the FIRST sets of the nonterminals: the nullable
      set, the equation of every nonterminal and the recorded set of every rule. */
  ghost predicate WellBuilt(sg: SimplifiedGrammar, firsts: FirstMap)
  {
    IsNullableSet(sg.rules, sg.epsilons)
    && (forall k :: k in sg.rules ==> k in firsts && firsts[k] == RulesFirst(sg.rules[k], firsts, sg.epsilons))
    && (forall k, j :: k in sg.rules && 0 <= j < |sg.rules[k]|
          ==> sg.rules[k][j] in sg.firstChars
              && sg.firstChars[sg.rules[k][j]] == RuleFirst(sg.rules[k][j], firsts, sg.epsilons))
  }

  /** Once every rule key is finished, the invariant of the FIRST pass gives the
      equations, the recorded sets, and the absence of left-recursive cycles. */
  lemma Complete(rules: RulesMap, eps: set<NonTerminal>, firsts: FirstMap, rank: map<NonTerminal, nat>, nextRank: nat,
                 ruleFirsts: map<SimplifiedRule, FirstCharacter>)
    requires Solved(rules, eps, firsts, rank, nextRank) && Recorded(rules, eps, firsts, ruleFirsts)
    requires forall k :: k in rules ==> k in firsts
    ensures forall k :: k in rules ==> firsts[k] == RulesFirst(rules[k], firsts, eps)
    ensures forall k, j :: k in rules && 0 <= j < |rules[k]|
              ==> rules[k][j] in ruleFirsts && ruleFirsts[rules[k][j]] == RuleFirst(rules[k][j], firsts, eps)
    ensures forall path, n :: !LeftCycle(rules, eps, path, n)
    ensures forall a, b :: LeftDep(rules, eps, a, b) ==> b in rules
  {
    forall a, b | LeftDep(rules, eps, a, b)
      ensures b in rules
    {
      assert Finished(firsts, a);
      var j, q :| 0 <= j < |rules[a]| && 0 <= q < ScanLength(rules[a][j].symbols, eps) && rules[a][j].symbols[q] == NT(b);
      assert rules[a][j].symbols[q].NT?;
      assert Finished(firsts, b);
    }
    forall k | k in rules
      ensures firsts[k] == RulesFirst(rules[k], firsts, eps)
    {
      assert Finished(firsts, k);
    }
    forall k, j | k in rules && 0 <= j < |rules[k]|
      ensures rules[k][j] in ruleFirsts && ruleFirsts[rules[k][j]] == RuleFirst(rules[k][j], firsts, eps)
    {
      assert Finished(firsts, k);
      assert IsRecorded(ruleFirsts, rules[k][j]);
    }
    forall path, n
      ensures !LeftCycle(rules, eps, path, n)
    {
      if LeftCycle(rules, eps, path, n) {
        assert LeftDep(rules, eps, path[0], path[1]);
        NoCycleThroughFinished(rules, eps, firsts, rank, nextRank, path, n);
      }
    }
  }

  /** Constructing a SimplifiedGrammar (`init`): the nullable fixpoint, then the FIRST
      pass. A LeftRecursion comes with a left-recursive cycle through the nonterminal it
      names, and a NoRuleFound with a chain of scans from a rule key to the nonterminal
      without rules it names; on success there is neither. */
  method Build(rules: RulesMap)
      returns (r: Result<SimplifiedGrammar, GrammarError>, ghost eps: set<NonTerminal>, ghost firsts: FirstMap,
               ghost trail: seq<NonTerminal>)
    ensures IsNullableSet(rules, eps)
    ensures r.Success? ==> r.value.rules == rules && r.value.epsilons == eps && WellBuilt(r.value, firsts)
    ensures r.Success? ==> forall path, n :: !LeftCycle(rules, eps, path, n)
    ensures r.Failure? ==> r.error.LeftRecursion? || r.error.NoRuleFound?
    ensures r.Failure? && r.error.LeftRecursion? ==> LeftCycle(rules, eps, trail, r.error.nonTerminal)
    ensures r.Failure? && r.error.NoRuleFound? ==> MissingReached(rules, eps, trail, r.error.nonTerminal)
    ensures r.Success? ==> forall a, b :: LeftDep(rules, eps, a, b) ==> b in rules
  {
    var epsilons := ComputeEpsilons(rules);
    eps := epsilons;
    var pass := new FirstPass(rules, epsilons);
    var err;
    err, trail := pass.Run();
    firsts := pass.firstsForNonTerminals;
    if err.Some? {
      return Failure(err.value), eps, firsts, trail;
    }
    Complete(rules, epsilons, pass.firstsForNonTerminals, pass.rank, pass.nextRank, pass.firstsForRules);
    r := Success(SimplifiedGrammar(rules, epsilons, pass.firstsForRules));
  }

  /** `fromGrammar`: lower the grammar, then construct the SimplifiedGrammar. */
  method FromGrammar(g: Grammar)
      returns (r: Result<SimplifiedGrammar, GrammarError>, ghost order: seq<NonTerminal>, ghost eps: set<NonTerminal>,
               ghost firsts: FirstMap, ghost trail: seq<NonTerminal>)
    ensures forall k :: k in g <==> k in order
    ensures IsNullableSet(LowerAll(g, order), eps)
    ensures r.Success? ==> r.value.rules == LowerAll(g, order) && r.value.epsilons == eps && WellBuilt(r.value, firsts)
    ensures r.Success? ==> forall k :: k in r.value.rules ==> exists n :: n in g && Owned(n, k)
    ensures r.Failure? ==> r.error.LeftRecursion? || r.error.NoRuleFound?
    ensures r.Failure? && r.error.LeftRecursion? ==> LeftCycle(LowerAll(g, order), eps, trail, r.error.nonTerminal)
    ensures r.Failure? && r.error.NoRuleFound? ==> MissingReached(LowerAll(g, order), eps, trail, r.error.nonTerminal)
    ensures r.Success? ==> forall a, b :: LeftDep(LowerAll(g, order), eps, a, b) ==> b in LowerAll(g, order)
  {
    var rules;
    rules, order := LowerGrammar(g);
    r, eps, firsts, trail := Build(rules);
  }

  /** The empty rule's FIRST set admits nothing. */
  lemma EpsilonFirstIsEmpty(firsts: FirstMap, eps: set<NonTerminal>, c: Option<char>)
    ensures !Suitable(RuleFirst(SimplifiedRule([]), firsts, eps), c)
  {
  }

  /** An unknown nonterminal has no possible rules. */
  lemma PossibleRulesOfUnknown(sg: SimplifiedGrammar, firsts: FirstMap, n: NonTerminal, c: Option<char>)
    requires WellBuilt(sg, firsts) && n !in sg.rules
    ensures sg.GetPossibleRules(n, c) == []
  {
  }

  /** A non-empty rule is possible for n and c exactly when it is a rule of n and one of
      the symbols its FIRST scan reads admits c. */
  lemma PossibleRulesMeaning(sg: SimplifiedGrammar, firsts: FirstMap, n: NonTerminal, c: Option<char>, r: SimplifiedRule)
    requires WellBuilt(sg, firsts) && n in sg.rules && !r.IsEpsilon()
    ensures r in sg.GetPossibleRules(n, c)
      <==> r in sg.rules[n] && exists q :: 0 <= q < ScanLength(r.symbols, sg.epsilons) && Admits(r.symbols[q], firsts, c)
  {
    FilterSuitableMembers(sg.rules[n], sg.firstChars, c, r);
    RuleFirstMeaning(r, firsts, sg.epsilons, c);
    if r in sg.rules[n] {
      var j :| 0 <= j < |sg.rules[n]| && sg.rules[n][j] == r;
      assert r in sg.firstChars && sg.firstChars[r] == RuleFirst(r, firsts, sg.epsilons);
    }
  }

  /** The epsilon rule is among the possible rules exactly when n is nullable, and then
      it comes last. */
  lemma PossibleRulesEpsilon(sg: SimplifiedGrammar, firsts: FirstMap, n: NonTerminal, c: Option<char>)
    requires WellBuilt(sg, firsts)
    ensures SimplifiedRule([]) in sg.GetPossibleRules(n, c) <==> n in sg.epsilons
    ensures n in sg.epsilons ==> sg.GetPossibleRules(n, c)[|sg.GetPossibleRules(n, c)| - 1] == SimplifiedRule([])
  {
    if n in sg.rules {
      var e := SimplifiedRule([]);
      FilterSuitableMembers(sg.rules[n], sg.firstChars, c, e);
      if e in sg.rules[n] {
        var j :| 0 <= j < |sg.rules[n]| && sg.rules[n][j] == e;
        assert sg.firstChars[e] == RuleFirst(e, firsts, sg.epsilons);
        EpsilonFirstIsEmpty(firsts, sg.epsilons, c);
      }
    }
  }
}
