/** The expression algebra of extended context-free grammars: symbols, sequences,
    choices, repetitions and optional parts, and a grammar as a map from
    nonterminals to expressions. */
module Grammar {
  import opened Wrappers

  /** Nonterminals name rules; two nonterminals are equal when their names are. */
  datatype NonTerminal = NonTerminal(name: string)

  /** The character filter of a SpecialSymbol. `None` stands for the end of the input.
      A filter is an object, so that two special symbols are equal only when they share
      the very same filter, as Kotlin compares lambdas by reference. */
  class CharFilter {
    const accepts: Option<char> -> bool

    constructor (accepts: Option<char> -> bool)
      ensures this.accepts == accepts
    {
      this.accepts := accepts;
    }
  }

  /** The text of a terminal is never empty. */
  type TerminalText = s: string | |s| > 0 witness "?"

  datatype Symbol =
    | NT(nonTerminal: NonTerminal)
    | Terminal(value: TerminalText)
    | Special(name: string, filter: CharFilter)
    | EndOfFile

  /** The Kotlin class is spelled Choise; the model keeps the spelling. */
  datatype Expression =
    | Sym(symbol: Symbol)
    | Sequence(parts: seq<Expression>)
    | Choise(variants: seq<Expression>)
    | Repeat(repeatable: Expression)
    | Maybe(possible: Expression)

  /** Each nonterminal has at most one defining expression. */
  type Grammar = map<NonTerminal, Expression>

  /** The exceptions of the grammar package. */
  datatype GrammarError =
    | WrongTerminal
    | NoRuleFound(nonTerminal: NonTerminal)
    | LeftRecursion(nonTerminal: NonTerminal)

  /** Constructing a Terminal: an empty text is refused. */
  function MakeTerminal(value: string): (r: Result<Symbol, GrammarError>)
    ensures r.Failure? <==> value == ""
    ensures r.Failure? ==> r.error == WrongTerminal
    ensures r.Success? ==> r.value.Terminal? && r.value.value == value
  {
    if |value| == 0 then Failure(WrongTerminal) else Success(Terminal(value))
  }

  /** `!s`: the same name, the negated filter (also on the end of input). */
  method Not(s: Symbol) returns (r: Symbol)
    requires s.Special?
    ensures r.Special? && r.name == s.name && fresh(r.filter)
    ensures forall c :: r.filter.accepts(c) == !s.filter.accepts(c)
  {
    var f := s.filter;
    var negated := new CharFilter(c => !f.accepts(c));
    r := Special(s.name, negated);
  }

  /** The vararg Grammar constructor: the pairs are put into the map in order. */
  function FromPairs(pairs: seq<(NonTerminal, Expression)>): (g: Grammar)
  {
    if |pairs| == 0 then map[]
    else FromPairs(pairs[..|pairs| - 1])[pairs[|pairs| - 1].0 := pairs[|pairs| - 1].1]
  }

  /** The keys of the map are exactly the keys of the pairs. */
  lemma {:induction false} FromPairsKeys(pairs: seq<(NonTerminal, Expression)>, k: NonTerminal)
    ensures k in FromPairs(pairs) <==> exists i :: 0 <= i < |pairs| && pairs[i].0 == k
  {
    if |pairs| > 0 {
      var init := pairs[..|pairs| - 1];
      FromPairsKeys(init, k);
      if k != pairs[|pairs| - 1].0 {
        if exists i :: 0 <= i < |init| && init[i].0 == k {
          var i :| 0 <= i < |init| && init[i].0 == k;
          assert pairs[i].0 == k;
        }
        if exists i :: 0 <= i < |pairs| && pairs[i].0 == k {
          var i :| 0 <= i < |pairs| && pairs[i].0 == k;
          assert init[i].0 == k;
        }
      }
    }
  }

  /** A pair that no later pair overrides gives the value of its key. */
  lemma {:induction false} FromPairsValues(pairs: seq<(NonTerminal, Expression)>, i: nat)
    requires i < |pairs| && LastWithKey(pairs, i)
    ensures pairs[i].0 in FromPairs(pairs) && FromPairs(pairs)[pairs[i].0] == pairs[i].1
  {
    var init := pairs[..|pairs| - 1];
    if i < |init| {
      assert pairs[i] == init[i];
      assert LastWithKey(init, i);
      assert pairs[i].0 != pairs[|pairs| - 1].0;
      FromPairsValues(init, i);
    }
  }

  /** No later pair has the key of pair i. */
  predicate LastWithKey(pairs: seq<(NonTerminal, Expression)>, i: nat)
    requires i < |pairs|
  {
    forall j :: i < j < |pairs| ==> pairs[j].0 != pairs[i].0
  }

  // ---------------------------------------------------------------------------
  // Rendering

  /** Every `'` becomes `\'`. */
  function Escape(s: string): string
  {
    if s == [] then []
    else (if s[0] == '\'' then ['\\', '\''] else [s[0]]) + Escape(s[1..])
  }

  /** Reference inverse of Escape: a backslash right before a quote is dropped. */
  function Unescape(t: string): string
  {
    if |t| == 0 then []
    else if |t| >= 2 && t[0] == '\\' && t[1] == '\'' then ['\''] + Unescape(t[2..])
    else [t[0]] + Unescape(t[1..])
  }

  lemma {:induction false} EscapeNeverStartsWithQuote(s: string)
    ensures Escape(s) == [] || Escape(s)[0] != '\''
  {
  }

  lemma {:induction false} UnescapeEscape(s: string)
    ensures Unescape(Escape(s)) == s
  {
    if s != [] {
      UnescapeEscape(s[1..]);
      EscapeNeverStartsWithQuote(s[1..]);
      var rest := Escape(s[1..]);
      if s[0] == '\'' {
        assert Escape(s) == ['\\', '\''] + rest;
        assert (['\\', '\''] + rest)[2..] == rest;
      } else {
        assert Escape(s) == [s[0]] + rest;
        assert ([s[0]] + rest)[1..] == rest;
      }
    }
  }

  /** In the escaped text every quote is preceded by a backslash. */
  lemma {:induction false} EscapedQuotesArePreceded(s: string)
    ensures forall i :: 0 <= i < |Escape(s)| && Escape(s)[i] == '\'' ==> i > 0 && Escape(s)[i - 1] == '\\'
  {
    if s != [] {
      EscapedQuotesArePreceded(s[1..]);
      EscapeNeverStartsWithQuote(s[1..]);
      var head := if s[0] == '\'' then ['\\', '\''] else [s[0]];
      var rest := Escape(s[1..]);
      assert Escape(s) == head + rest;
      forall i | 0 <= i < |Escape(s)| && Escape(s)[i] == '\''
        ensures i > 0 && Escape(s)[i - 1] == '\\'
      {
        if i >= |head| {
          assert Escape(s)[i] == rest[i - |head|];
          if i - |head| == 0 {
            assert false;
          }
          assert Escape(s)[i - 1] == rest[i - |head| - 1];
        }
      }
    }
  }

  /** A terminal renders as its text between single quotes, with embedded quotes
      escaped: the text between the outer quotes unescapes to the value. */
  function TerminalToString(value: TerminalText): (r: string)
    ensures |r| >= 2 && r[0] == '\'' && r[|r| - 1] == '\''
    ensures Unescape(r[1..|r| - 1]) == value
  {
    UnescapeEscape(value);
    var r := "'" + Escape(value) + "'";
    assert r[1..|r| - 1] == Escape(value);
    r
  }

  function SymbolToString(s: Symbol): string
  {
    match s
    case NT(n) => n.name
    case Terminal(v) => TerminalToString(v)
    case Special(name, _) => name
    // EndOfFile keeps Object.toString: class name, '@', hex of hashCode (which is 1)
    case EndOfFile => "formallang.grammar.EndOfFile@1"
  }

  function Concat(parts: seq<string>): string
  {
    if parts == [] then [] else parts[0] + Concat(parts[1..])
  }

  /** Kotlin's substringBeforeLast(c): the text before the last c, or all of s. */
  function SubstringBeforeLast(s: string, c: char): (r: string)
    ensures |r| <= |s|
  {
    if |s| == 0 then s
    else if s[|s| - 1] == c then s[..|s| - 1]
    else
      var init := SubstringBeforeLast(s[..|s| - 1], c);
      if init == s[..|s| - 1] then s else init
  }

  function ExprToString(e: Expression): string
  {
    match e
    case Sym(s) => SymbolToString(s)
    case Sequence(ps) => Concat(seq(|ps|, i requires 0 <= i < |ps| => " " + ExprToString(ps[i])))
    case Choise(vs) =>
      SubstringBeforeLast("( " + Concat(seq(|vs|, i requires 0 <= i < |vs| => ExprToString(vs[i]) + " | ")), '|') + ")"
    case Repeat(r) => "{ " + ExprToString(r) + " }"
    case Maybe(p) => "[ " + ExprToString(p) + " ]"
  }
}
