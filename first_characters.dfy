/** FIRST sets: which look-ahead characters (or the end of input, `None`) can start
    a derivation. A set is a whitelist (admit what the filter or the char set admits)
    or a blacklist (admit what neither excludes); `+` is meant as set union. */
module FirstCharacters {
  import opened Wrappers
  import opened Grammar

  type CharPredicate = Option<char> -> bool

  /** The filter lambdas that `+` composes, written as data: a special symbol's own
      filter, the default `{false}`, and the three compositions `+` builds. */
  datatype Filter =
    | Base(accepts: CharPredicate)
    | Never
    | Both(left: Filter, right: Filter)
    | Either(left: Filter, right: Filter)
    | ButNot(left: Filter, right: Filter, excluded: set<Option<char>>)

  /** Applying a filter to a character. */
  predicate Holds(f: Filter, c: Option<char>)
  {
    match f
    case Base(p) => p(c)
    case Never => false
    case Both(l, r) => Holds(l, c) && Holds(r, c)
    case Either(l, r) => Holds(l, c) || Holds(r, c)
    case ButNot(l, r, cs) => Holds(l, c) && !Holds(r, c) && c !in cs
  }

  datatype FirstCharacter =
    | BlackList(charList: set<Option<char>>, filter: Filter)
    | WhiteList(charList: set<Option<char>>, filter: Filter)

  /** `suitable`: does the set admit c? */
  predicate Suitable(f: FirstCharacter, c: Option<char>)
  {
    match f
    case BlackList(cs, p) => !(Holds(p, c) || c in cs)
    case WhiteList(cs, p) => Holds(p, c) || c in cs
  }

  /** The default whitelist: no characters, a filter that is always false. */
  function EmptyWhiteList(): (r: FirstCharacter)
    ensures r.WhiteList?
    ensures forall c :: !Suitable(r, c)
  {
    WhiteList({}, Never)
  }

  /** The private `sum` of a whitelist and a blacklist: a blacklist that excludes a
      character only when the blacklist excludes it and the whitelist does not admit it. */
  function Sum(white: FirstCharacter, black: FirstCharacter): (r: FirstCharacter)
    requires white.WhiteList? && black.BlackList?
    ensures r.BlackList?
    ensures forall c :: Suitable(r, c) <==> Suitable(white, c) || Suitable(black, c)
  {
    BlackList(
      (set x | x in black.charList && x !in white.charList && !Holds(white.filter, x)),
      ButNot(black.filter, white.filter, white.charList))
  }

  /** `plus`: whitelist + whitelist stays a whitelist, blacklist + blacklist stays a
      blacklist, a mixed sum goes through Sum; in every case the result admits exactly
      what either operand admits. */
  function Plus(a: FirstCharacter, b: FirstCharacter): (r: FirstCharacter)
    ensures a.WhiteList? && b.WhiteList? ==> r.WhiteList?
    ensures a.BlackList? || b.BlackList? ==> r.BlackList?
    ensures forall c :: Suitable(r, c) <==> Suitable(a, c) || Suitable(b, c)
  {
    match (a, b)
    case (BlackList(ac, af), BlackList(bc, bf)) =>
      BlackList(
        (ac * bc) + (set x | x in ac && Holds(bf, x)) + (set x | x in bc && Holds(af, x)),
        Both(af, bf))
    case (BlackList(_, _), WhiteList(_, _)) => Sum(b, a)
    case (WhiteList(_, _), BlackList(_, _)) => Sum(a, b)
    case (WhiteList(ac, af), WhiteList(bc, bf)) => WhiteList(ac + bc, Either(af, bf))
  }

  /** The default whitelist is a unit of `+`, with respect to `suitable`, on both sides. */
  lemma EmptyIsUnit(f: FirstCharacter, c: Option<char>)
    ensures Suitable(Plus(EmptyWhiteList(), f), c) == Suitable(f, c)
    ensures Suitable(Plus(f, EmptyWhiteList()), c) == Suitable(f, c)
  {
  }

  /** `Terminal.getFirstChar`: admits exactly the terminal's first character. */
  function TerminalFirst(t: Symbol): (r: FirstCharacter)
    requires t.Terminal?
    ensures r.WhiteList?
    ensures forall c :: Suitable(r, c) <==> c == Some(t.value[0])
  {
    WhiteList({Some(t.value[0])}, Never)
  }

  /** `SpecialSymbol.getFirstChar`: admits exactly what the symbol's filter admits. */
  function SpecialFirst(s: Symbol): (r: FirstCharacter)
    requires s.Special?
    ensures r.WhiteList?
    ensures forall c :: Suitable(r, c) <==> s.filter.accepts(c)
  {
    WhiteList({}, Base(s.filter.accepts))
  }

  /** Left fold of `+` over a list, starting from the default whitelist. */
  function PlusAll(fs: seq<FirstCharacter>): FirstCharacter
  {
    if |fs| == 0 then EmptyWhiteList() else Plus(PlusAll(fs[..|fs| - 1]), fs[|fs| - 1])
  }

  /** The fold admits c exactly when some element admits c. */
  lemma {:induction false} PlusAllIsUnion(fs: seq<FirstCharacter>, c: Option<char>)
    ensures Suitable(PlusAll(fs), c) <==> exists i :: 0 <= i < |fs| && Suitable(fs[i], c)
  {
    if |fs| > 0 {
      var init := fs[..|fs| - 1];
      PlusAllIsUnion(init, c);
      if exists i :: 0 <= i < |init| && Suitable(init[i], c) {
        var i :| 0 <= i < |init| && Suitable(init[i], c);
        assert Suitable(fs[i], c);
      }
      if exists i :: 0 <= i < |fs| && Suitable(fs[i], c) {
        var i :| 0 <= i < |fs| && Suitable(fs[i], c);
        if i < |init| {
          assert Suitable(init[i], c);
        }
      }
    }
  }
}
