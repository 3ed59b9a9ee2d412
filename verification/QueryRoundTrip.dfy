/** Reading a printed query back: the grouping parser cuts it into exactly its top-level
patterns, numbered in source order. */
module QueryRoundTrip {
  import opened Values
  import opened QueryText
  import opened QueryPrinter
  import opened QueryAcceptance
  import V = QueryValidator
  import G = QueryGroups

  type Found = seq<G.FallbackPattern>

  // ---------------------------------------------------------------- one round

  ghost predicate AllAre(ps: Found, p: G.FallbackPattern) { forall k :: 0 <= k < |ps| ==> ps[k] == p }

  lemma {:induction false} ParenRound(unquote: G.Unquote, s: string, i: nat, close: nat, end: nat, counter: nat, forced: Option<nat>,
                  acc: Found)
    requires i < close < end <= |s| && s[i] == '(' && G.HasNodeType(unquote, s, i, close)
    requires Balanced(s, i, end, Plain, 0, '(', ')') == (close, true)
    ensures var (group, next) := G.Allocate(counter, forced); var j := G.SuffixFrom(s, close + 1, end);
      G.RoundAt(unquote, s, i, end, counter, forced, acc) == G.On(j, next, acc + [G.FallbackPattern(group, i, j)])
  {
  }

  lemma {:induction false} PredicateRound(unquote: G.Unquote, s: string, i: nat, close: nat, counter: nat, acc: Found)
    requires i + 2 < close < |s| && s[i] == '(' && s[i + 1] == '#' && IsIdentStart(s[i + 2]) && acc != []
    requires Balanced(s, i, |s|, Plain, 0, '(', ')') == (close, true)
    ensures G.RoundAt(unquote, s, i, |s|, counter, None, acc) == G.On(close + 1, counter, G.Extend(acc, acc[|acc| - 1].index, close + 1))
  {
    assert SpaceFrom(s, i + 1, close) == i + 1;
    assert !G.HasNodeType(unquote, s, i, close) && G.IsPredicate(s, i, close);
  }

  lemma {:induction false} ChoiceRound(unquote: G.Unquote, s: string, i: nat, close: nat, end: nat, counter: nat, forced: Option<nat>,
                    acc: Found, inner: Found)
    requires i < close < end <= |s| && s[i] == '[' && Balanced(s, i, end, Plain, 0, '[', ']') == (close, true)
    requires var (group, next) := G.Allocate(counter, forced);
      G.Collect(unquote, s, i + 1, close, next, Some(group), []) == Some((inner, next))
    ensures var (group, next) := G.Allocate(counter, forced); var j := G.SuffixFrom(s, close + 1, end);
      G.RoundAt(unquote, s, i, end, counter, forced, acc) == G.On(j, next, acc + G.Repeat(|inner|, G.FallbackPattern(group, i, j)))
  {
  }

  lemma {:induction false} LiteralRound(unquote: G.Unquote, s: string, i: nat, t: string, end: nat, counter: nat, forced: Option<nat>,
                     acc: Found)
    requires i + |t| <= end <= |s| && At(s, i, t) && IsLiteral(unquote, t)
    requires var j := G.SuffixFrom(s, i + |t|, end); j == end || !IsQuantifier(s[j])
    ensures var (group, next) := G.Allocate(counter, forced); var j := G.SuffixFrom(s, i + |t|, end);
      i < end && G.RoundAt(unquote, s, i, end, counter, forced, acc) == G.On(j, next, acc + [G.FallbackPattern(group, i, j)])
  {
    LiteralAt(unquote, s, i, t);
  }

  /** A printed node, group or alternation is closed where it ends. */
  lemma {:induction false} AtomBalanced(unquote: G.Unquote, s: string, i: nat, a: Atom, end: nat)
    requires ShowsAtom(s, i, a) && IsAtom(unquote, a) && i + LenAtom(a) <= end <= |s|
    ensures a.Node? || a.Group? ==> Balanced(s, i, end, Plain, 0, '(', ')') == (i + LenAtom(a) - 1, true)
    ensures a.Choice? ==> Balanced(s, i, end, Plain, 0, '[', ']') == (i + LenAtom(a) - 1, true)
  {
    FirstByte(unquote, s, i, a);
    if a.Node? {
      NodeAccepted(unquote, s, i, a);
      V.ParenAgreement(Accepts(unquote), s, i, end);
    } else if a.Group? {
      GroupAccepted(unquote, s, i, a);
      V.ParenAgreement(Accepts(unquote), s, i, end);
    } else if a.Choice? {
      AtomAccepted(unquote, s, i, a);
      V.BracketAgreement(Accepts(unquote), s, i, end);
    }
  }

  // ---------------------------------------------------------------- going on

  /** From `i` one round of the parser goes on at `j`. */
  ghost predicate Leads(unquote: G.Unquote, s: string, end: nat, forced: Option<nat>, i: nat, counter: nat, acc: Found, j: nat, next: nat, ps: Found) {
    i < end <= |s| && Firm(s[i]) && j <= end && G.RoundAt(unquote, s, i, end, counter, forced, acc) == G.On(j, next, ps)
  }

  /** A property of the parser's states that going on keeps. */
  ghost predicate Goes(p: (nat, nat, Found) -> bool, unquote: G.Unquote, s: string, end: nat, forced: Option<nat>) {
    && (forall i: nat, c: nat, acc: Found, j: nat, d: nat, ps: Found ::
          p(i, c, acc) && Leads(unquote, s, end, forced, i, c, acc, j, d, ps) ==> p(j, d, ps))
    && (forall i: nat, c: nat, acc: Found {:trigger Blank(s, end, i), p(i, c, acc)} ::
          p(i, c, acc) && Blank(s, end, i) ==> p(i + 1, c, acc))
  }

  /** From this state the parser ends with `r`. */
  ghost function Ends(unquote: G.Unquote, s: string, end: nat, forced: Option<nat>, r: Option<(Found, nat)>): (nat, nat, Found) -> bool
    requires end <= |s|
  {
    (i: nat, c: nat, acc: Found) => i <= end && G.Collect(unquote, s, i, end, c, forced, acc) == r
  }

  lemma {:induction false} EndsGoes(unquote: G.Unquote, s: string, end: nat, forced: Option<nat>, r: Option<(Found, nat)>)
    requires end <= |s|
    ensures Goes(Ends(unquote, s, end, forced, r), unquote, s, end, forced)
  {
    var p := Ends(unquote, s, end, forced, r);
    forall i: nat, c: nat, acc: Found, j: nat, d: nat, ps: Found | p(i, c, acc) && Leads(unquote, s, end, forced, i, c, acc, j, d, ps)
      ensures p(j, d, ps)
    {
      assert SpaceFrom(s, i, end) == i;
    }
    forall i: nat, c: nat, acc: Found | p(i, c, acc) && Blank(s, end, i)
      ensures p(i + 1, c, acc)
    {
      assert SpaceFrom(s, i, end) == SpaceFrom(s, i + 1, end);
    }
  }

  // ---------------------------------------------------------------- patterns

  lemma {:induction false} TypeOfNode(unquote: G.Unquote, s: string, i: nat, close: nat)
    requires i + 1 < close <= |s| && IsIdentStart(s[i + 1])
    ensures G.HasNodeType(unquote, s, i, close)
  {
    assert SpaceFrom(s, i + 1, close) == i + 1;
  }

  lemma {:induction false} TypeOfLiteral(unquote: G.Unquote, s: string, i: nat, t: string, close: nat)
    requires i + 1 + |t| <= close <= |s| && At(s, i + 1, t) && IsLiteral(unquote, t) && unquote(t) != Some("")
    ensures G.HasNodeType(unquote, s, i, close)
  {
    LiteralAt(unquote, s, i + 1, t);
    assert SpaceFrom(s, i + 1, close) == i + 1;
  }

  lemma {:induction false} TypeOfNested(unquote: G.Unquote, s: string, i: nat, close: nat, nested: nat)
    requires i + 1 < nested < close <= |s| && s[i + 1] == '(' && Balanced(s, i + 1, close, Plain, 0, '(', ')') == (nested, true)
    requires G.HasNodeType(unquote, s, i + 1, nested)
    ensures G.HasNodeType(unquote, s, i, close)
  {
    assert SpaceFrom(s, i + 1, close) == i + 1;
  }

  /** A node type is found in a printed node, and in a printed group however deep it is. */
  lemma {:induction false} NodeTypeFound(unquote: G.Unquote, s: string, i: nat, a: Atom)
    requires (a.Node? || a.Group?) && ShowsAtom(s, i, a) && IsAtom(unquote, a)
    ensures LenAtom(a) >= 2 && G.HasNodeType(unquote, s, i, i + LenAtom(a) - 1)
    decreases a
  {
    var close := i + LenAtom(a) - 1;
    if a.Node? {
      CharAt(s, i + 1, a.name, 0);
      TypeOfNode(unquote, s, i, close);
    } else {
      GroupTypeFound(unquote, s, i, a.first, close);
    }
  }

  lemma {:induction false} GroupTypeFound(unquote: G.Unquote, s: string, i: nat, first: Pattern, close: nat)
    requires Shows(s, i + 1, first) && IsPattern(unquote, first) && GivesType(unquote, first.atom)
    requires i + 1 + Len(first) <= close <= |s|
    ensures i < close && G.HasNodeType(unquote, s, i, close)
    decreases first
  {
    FirstByte(unquote, s, i + 1, first.atom);
    if first.atom.Literal? {
      TypeOfLiteral(unquote, s, i, first.atom.text, close);
    } else {
      AtomBalanced(unquote, s, i + 1, first.atom, close);
      NodeTypeFound(unquote, s, i + 1, first.atom);
      TypeOfNested(unquote, s, i, close, i + LenAtom(first.atom));
    }
  }

  /** A group that begins with an alternation is accepted by the validator, and no pattern
  comes of it: `([(a) (b)] @x)` is skipped. */
  lemma {:induction false} GroupedChoiceIsSkipped(unquote: G.Unquote, s: string, i: nat, a: Atom, end: nat, counter: nat,
                                                 forced: Option<nat>, acc: Found)
    requires a.Group? && a.first.atom.Choice? && ShowsAtom(s, i, a) && IsGroup(unquote, a) && i + LenAtom(a) <= end <= |s|
    ensures i < end && V.Paren(Accepts(unquote), s, i) == V.Good(i + LenAtom(a))
    ensures G.RoundAt(unquote, s, i, end, counter, forced, acc) == G.On(i + LenAtom(a), counter, acc)
  {
    hide IsGroup, ShowsAtom, LenAtom, G.RoundAt, Balanced;
    BracketInside(unquote, s, i, a);
    GroupAccepted(unquote, s, i, a);
    V.ParenAgreement(Accepts(unquote), s, i, end);
    BracketRound(unquote, s, i, i + LenAtom(a) - 1, end, counter, forced, acc);
  }

  lemma {:induction false} BracketInside(unquote: G.Unquote, s: string, i: nat, a: Atom)
    requires a.Group? && a.first.atom.Choice? && ShowsAtom(s, i, a) && IsGroup(unquote, a)
    ensures i + LenAtom(a) <= |s| && LenAtom(a) > 3 && s[i] == '(' && s[i + 1] == '['
  {
    FirstByte(unquote, s, i + 1, a.first.atom);
  }

  lemma {:induction false} BracketRound(unquote: G.Unquote, s: string, i: nat, close: nat, end: nat, counter: nat, forced: Option<nat>,
                                       acc: Found)
    requires i + 1 < close < end <= |s| && s[i + 1] == '[' && Balanced(s, i, end, Plain, 0, '(', ')') == (close, true)
    ensures s[i] == '(' ==> G.RoundAt(unquote, s, i, end, counter, forced, acc) == G.On(close + 1, counter, acc)
  {
    assert SpaceFrom(s, i + 1, close) == i + 1;
  }

  /** A predicate written with a dot, like `(.eq? @x "b")`, is accepted as a predicate by the
  validator, but the grouping parser numbers it as a pattern of its own. */
  lemma {:induction false} DottedPredicateIsPattern(unquote: G.Unquote, s: string, i: nat, m: nat, end: nat, counter: nat,
                                                   forced: Option<nat>, acc: Found)
    requires i + 1 < m <= end <= |s| && s[i] == '(' && s[i + 1] == '.' && V.Paren(Accepts(unquote), s, i) == V.Good(m)
    ensures V.Predicate(Accepts(unquote), s, i + 1) == V.Good(m)
    ensures var (group, next) := G.Allocate(counter, forced); var j := G.SuffixFrom(s, m, end);
      G.RoundAt(unquote, s, i, end, counter, forced, acc) == G.On(j, next, acc + [G.FallbackPattern(group, i, j)])
  {
    V.ParenAgreement(Accepts(unquote), s, i, end);
    assert SpaceFrom(s, i + 1, |s|) == i + 1;
    assert m > i + 2 && SpaceFrom(s, i + 1, m - 1) == i + 1;
    ParenRound(unquote, s, i, m - 1, end, counter, forced, acc);
  }

  lemma {:induction false} ParenCollected(unquote: G.Unquote, s: string, i: nat, end: nat, a: Atom, counter: nat, forced: Option<nat>,
                      acc: Found)
    requires (a.Node? || a.Group?) && ShowsAtom(s, i, a) && IsAtom(unquote, a) && i + LenAtom(a) <= end <= |s|
    ensures var (group, next) := G.Allocate(counter, forced); var j := G.SuffixFrom(s, i + LenAtom(a), end);
      i < end && G.RoundAt(unquote, s, i, end, counter, forced, acc) == G.On(j, next, acc + [G.FallbackPattern(group, i, j)])
  {
    hide IsAtom, ShowsAtom, LenAtom, G.HasNodeType, G.RoundAt, G.SuffixFrom, Balanced;
    FirstByte(unquote, s, i, a);
    AtomBalanced(unquote, s, i, a, end);
    NodeTypeFound(unquote, s, i, a);
    ParenRound(unquote, s, i, i + LenAtom(a) - 1, end, counter, forced, acc);
  }

  lemma {:induction false} ChoiceCollected(unquote: G.Unquote, s: string, i: nat, end: nat, a: Atom, counter: nat, forced: Option<nat>,
                                          acc: Found) returns (cut: Found)
    requires a.Choice? && ShowsAtom(s, i, a) && IsAtom(unquote, a) && i + LenAtom(a) <= end <= |s|
    ensures var j := G.SuffixFrom(s, i + LenAtom(a), end);
      i < end && cut != [] && AllAre(cut, G.FallbackPattern(G.Allocate(counter, forced).0, i, j))
    ensures G.RoundAt(unquote, s, i, end, counter, forced, acc)
         == G.On(G.SuffixFrom(s, i + LenAtom(a), end), G.Allocate(counter, forced).1, acc + cut)
    decreases a, 0
  {
    var (group, next) := G.Allocate(counter, forced);
    var close := i + LenAtom(a) - 1;
    AtomBalanced(unquote, s, i, a, end);
    var inner := BranchesCollected(unquote, s, i + 1, close, a.branches, next, group);
    ChoiceRound(unquote, s, i, close, end, counter, forced, acc, inner);
    cut := G.Repeat(|inner|, G.FallbackPattern(group, i, G.SuffixFrom(s, close + 1, end)));
  }

  lemma {:induction false} LiteralShown(s: string, i: nat, a: Atom)
    requires a.Literal? && ShowsAtom(s, i, a)
    ensures At(s, i, a.text)
  {
  }

  lemma {:induction false} AtomCollected(unquote: G.Unquote, s: string, i: nat, end: nat, a: Atom, counter: nat, forced: Option<nat>,
                                        acc: Found, j: nat) returns (cut: Found)
    requires ShowsAtom(s, i, a) && IsAtom(unquote, a) && i + LenAtom(a) <= end <= |s|
    requires j == G.SuffixFrom(s, i + LenAtom(a), end) && (j == end || !IsQuantifier(s[j]))
    ensures i < end && cut != [] && AllAre(cut, G.FallbackPattern(G.Allocate(counter, forced).0, i, j))
    ensures G.RoundAt(unquote, s, i, end, counter, forced, acc) == G.On(j, G.Allocate(counter, forced).1, acc + cut)
    decreases a
  {
    hide ShowsAtom, G.RoundAt, G.SuffixFrom;
    match a {
      case Node(_, _) =>
        ParenCollected(unquote, s, i, end, a, counter, forced, acc);
        cut := [G.FallbackPattern(G.Allocate(counter, forced).0, i, j)];
      case Literal(text) =>
        LiteralShown(s, i, a);
        LiteralRound(unquote, s, i, text, end, counter, forced, acc);
        cut := [G.FallbackPattern(G.Allocate(counter, forced).0, i, j)];
      case Choice(_) =>
        cut := ChoiceCollected(unquote, s, i, end, a, counter, forced, acc);
      case Group(_, _, _) =>
        ParenCollected(unquote, s, i, end, a, counter, forced, acc);
        cut := [G.FallbackPattern(G.Allocate(counter, forced).0, i, j)];
    }
  }

  lemma {:induction false} SuffixEnds(s: string, i: nat, p: Pattern, end: nat) returns (j: nat)
    requires ShowsSuffix(s, i, p) && IsSuffix(p) && Settled(s, i + LenSuffix(p), end)
    ensures j == Next(s, i + LenSuffix(p), end) == G.SuffixFrom(s, i, end) && (j == end || !IsQuantifier(s[j]))
  {
    j := Next(s, i + LenSuffix(p), end);
    SuffixGrouped(s, i, p, end);
    SettledSpace(s, i + LenSuffix(p), end);
  }

  /** A printed pattern is cut off whole, under one number. */
  lemma {:induction false} PatternRound(unquote: G.Unquote, s: string, i: nat, end: nat, p: Pattern, counter: nat, forced: Option<nat>,
                                       acc: Found) returns (cut: Found)
    requires Shows(s, i, p) && IsPattern(unquote, p) && Settled(s, i + Len(p), end)
    ensures i < end && Firm(s[i]) && cut != []
    ensures AllAre(cut, G.FallbackPattern(G.Allocate(counter, forced).0, i, Next(s, i + Len(p), end)))
    ensures G.RoundAt(unquote, s, i, end, counter, forced, acc)
         == G.On(Next(s, i + Len(p), end), G.Allocate(counter, forced).1, acc + cut)
    decreases p, 0
  {
    hide IsAtom, ShowsAtom, LenAtom, G.RoundAt, G.SuffixFrom;
    FirstByte(unquote, s, i, p.atom);
    assert i + LenAtom(p.atom) + LenSuffix(p) == i + Len(p);
    var j := SuffixEnds(s, i + LenAtom(p.atom), p, end);
    cut := AtomCollected(unquote, s, i, end, p.atom, counter, forced, acc, j);
  }

  lemma {:induction false} PatternGoes(p: (nat, nat, Found) -> bool, unquote: G.Unquote, s: string, i: nat, end: nat, pattern: Pattern,
                                      counter: nat, forced: Option<nat>, acc: Found) returns (cut: Found)
    requires Shows(s, i, pattern) && IsPattern(unquote, pattern) && Settled(s, i + Len(pattern), end)
    requires Goes(p, unquote, s, end, forced) && p(i, counter, acc)
    ensures cut != [] && AllAre(cut, G.FallbackPattern(G.Allocate(counter, forced).0, i, Next(s, i + Len(pattern), end)))
    ensures p(Next(s, i + Len(pattern), end), G.Allocate(counter, forced).1, acc + cut)
    decreases pattern, 1
  {
    cut := PatternRound(unquote, s, i, end, pattern, counter, forced, acc);
    assert Leads(unquote, s, end, forced, i, counter, acc, Next(s, i + Len(pattern), end), G.Allocate(counter, forced).1, acc + cut);
  }

  lemma {:induction false} BranchesGo(p: (nat, nat, Found) -> bool, unquote: G.Unquote, s: string, i: nat, end: nat, bs: seq<Pattern>,
                                     counter: nat, group: nat, acc: Found) returns (ps: Found)
    requires ShowsBranches(s, i, bs) && AreBranches(unquote, bs) && i + LenBranches(bs) == end < |s| && s[end] == ']'
    requires Goes(p, unquote, s, end, Some(group)) && p(i, counter, acc)
    ensures p(end, counter, ps) && |ps| >= |acc| && (bs != [] ==> |ps| > |acc|)
    decreases bs, 0
  {
    if bs == [] {
      ps := acc;
    } else {
      FirstBranch(unquote, s, i, bs);
      var k := i + Len(bs[0]);
      assert Settled(s, k, end) && Next(s, k, end) == k + 1;
      var cut := PatternGoes(p, unquote, s, i, end, bs[0], counter, Some(group), acc);
      ps := BranchesGo(p, unquote, s, k + 1, end, bs[1..], counter, group, acc + cut);
    }
  }

  /** An alternation's branches come out under its number, and use up none. */
  lemma {:induction false} BranchesCollected(unquote: G.Unquote, s: string, i: nat, end: nat, bs: seq<Pattern>, counter: nat, group: nat)
    returns (ps: Found)
    requires ShowsBranches(s, i, bs) && AreBranches(unquote, bs) && i + LenBranches(bs) == end < |s| && s[end] == ']'
    ensures G.Collect(unquote, s, i, end, counter, Some(group), []) == Some((ps, counter)) && (bs != [] ==> ps != [])
    decreases bs, 1
  {
    var r := G.Collect(unquote, s, i, end, counter, Some(group), []);
    EndsGoes(unquote, s, end, Some(group), r);
    ps := BranchesGo(Ends(unquote, s, end, Some(group), r), unquote, s, i, end, bs, counter, group, []);
  }

  // ---------------------------------------------------------------- predicates

  /** The patterns once the predicates that end at `n` have joined the last of them. */
  function Joining(acc: Found, ps: seq<Predicate>, n: nat): Found
    requires acc != []
  {
    if ps == [] then acc else G.Extend(acc, acc[|acc| - 1].index, n)
  }

  lemma {:induction false} PredicateBalanced(unquote: G.Unquote, s: string, i: nat, p: Predicate)
    requires ShowsPredicate(s, i, p) && IsPredicate(unquote, p)
    ensures Balanced(s, i, |s|, Plain, 0, '(', ')') == (i + LenPredicate(p) - 1, true)
    ensures IsIdentStart(s[i + 2])
  {
    PredicateAccepted(unquote, s, i, p);
    V.ParenAgreement(Accepts(unquote), s, i, |s|);
    CharAt(s, i + 2, p.operator, 0);
  }

  lemma {:induction false} PredicateLeads(unquote: G.Unquote, s: string, i: nat, p: Predicate, counter: nat, acc: Found)
    requires ShowsPredicate(s, i, p) && IsPredicate(unquote, p) && acc != []
    ensures var k := i + LenPredicate(p);
      Leads(unquote, s, |s|, None, i, counter, acc, k, counter, G.Extend(acc, acc[|acc| - 1].index, k))
  {
    PredicateBalanced(unquote, s, i, p);
    PredicateRound(unquote, s, i, i + LenPredicate(p) - 1, counter, acc);
  }

  lemma {:induction false} BlankGoes(p: (nat, nat, Found) -> bool, unquote: G.Unquote, s: string, i: nat, counter: nat, acc: Found)
    requires Goes(p, unquote, s, |s|, None) && p(i, counter, acc) && Blank(s, |s|, i)
    ensures p(i + 1, counter, acc)
  {
  }

  /** Predicates join the pattern before them. */
  lemma {:induction false} PredicatesGo(p: (nat, nat, Found) -> bool, unquote: G.Unquote, s: string, i: nat, ps: seq<Predicate>,
                                       n: nat, counter: nat, acc: Found) returns (r: Found)
    requires PredicatesBehind(s, i, ps) == Some(n) && EndsLine(s, n) && ArePredicates(unquote, ps) && acc != []
    requires Goes(p, unquote, s, |s|, None) && p(i + 1, counter, acc)
    ensures r == Joining(acc, ps, n) && p(n + 1, counter, r)
    decreases ps
  {
    BlankBefore(s, i, ps, n);
    if ps == [] {
      r := acc;
    } else {
      var k := i + 1 + LenPredicate(ps[0]);
      var joined := G.Extend(acc, acc[|acc| - 1].index, k);
      PredicateGoes(p, unquote, s, i, ps, n, counter, acc, k);
      r := PredicatesGo(p, unquote, s, k, ps[1..], n, counter, joined);
      JoinsAgain(acc, ps, k, n);
    }
  }

  /** The first predicate joins, and the others stand behind it. */
  lemma {:induction false} PredicateGoes(p: (nat, nat, Found) -> bool, unquote: G.Unquote, s: string, i: nat, ps: seq<Predicate>,
                                        n: nat, counter: nat, acc: Found, k: nat)
    requires ps != [] && PredicatesBehind(s, i, ps) == Some(n) && EndsLine(s, n) && ArePredicates(unquote, ps) && acc != [] && k == i + 1 + LenPredicate(ps[0])
    requires Goes(p, unquote, s, |s|, None) && p(i + 1, counter, acc)
    ensures p(k + 1, counter, G.Extend(acc, acc[|acc| - 1].index, k))
    ensures PredicatesBehind(s, k, ps[1..]) == Some(n) && ArePredicates(unquote, ps[1..]) && (ps[1..] == [] ==> k == n)
  {
    BlankBefore(s, i, ps, n);
    PredicateLeads(unquote, s, i + 1, ps[0], counter, acc);
    BlankBefore(s, k, ps[1..], n);
    BlankGoes(p, unquote, s, k, counter, G.Extend(acc, acc[|acc| - 1].index, k));
  }

  lemma {:induction false} JoinsAgain(acc: Found, ps: seq<Predicate>, k: nat, n: nat)
    requires acc != [] && ps != [] && (ps[1..] == [] ==> k == n)
    ensures Joining(G.Extend(acc, acc[|acc| - 1].index, k), ps[1..], n) == Joining(acc, ps, n)
  {
  }

  // ---------------------------------------------------------------- lines

  /** What the parser makes of line `k` of a query `total` bytes long: a span from the start
  of the line to behind its last predicate, or over the newline when it has none. */
  function LineRead(ts: seq<Top>, k: nat, total: nat): G.FallbackPattern
    requires k < |ts| && LenFrom(ts, k) <= total
  {
    var start := total - LenFrom(ts, k);
    G.FallbackPattern(k, start, start + LenTop(ts[k]) + if ts[k].predicates == [] then 1 else 0)
  }

  ghost predicate Carried(ps: Found, from: nat, g: int) { exists k :: from <= k < |ps| && ps[k].index == g }

  /** The `k`th pattern is that of `acc`, or what the parser makes of a line in a range. */
  predicate Placed(ts: seq<Top>, total: nat, acc: Found, ps: Found, k: nat, low: int, high: int)
    requires k < |ps|
  {
    if k < |acc| then ps[k] == acc[k]
    else
      var g := ps[k].index;
      low <= g < high && g < |ts| && LenFrom(ts, g) <= total && ps[k] == LineRead(ts, g, total)
  }

  /** `ps` adds to `acc` patterns that carry exactly the lines from `low` to `high`. */
  ghost predicate Grows(ts: seq<Top>, total: nat, acc: Found, ps: Found, low: int, high: int) {
    && |acc| <= |ps|
    && (forall k: nat :: k < |ps| ==> Placed(ts, total, acc, ps, k, low, high))
    && (forall g :: low <= g < high ==> Carried(ps, |acc|, g))
  }

  /** One line of a query: its pattern with its predicates, under one number. */
  lemma {:induction false} TopGoes(p: (nat, nat, Found) -> bool, unquote: G.Unquote, s: string, i: nat, ts: seq<Top>, k: nat, acc: Found) returns (ps: Found)
    requires k < |ts| && ShowsTop(s, i, ts[k]) && IsTop(unquote, ts[k]) && k < U32_MAX && EndsLine(s, i + LenTop(ts[k]))
    requires i + LenFrom(ts, k) == |s| && Goes(p, unquote, s, |s|, None) && p(i, k, acc) && G.Below(acc, k)
    ensures Grows(ts, |s|, acc, ps, k, k + 1)
    ensures p(i + LenTop(ts[k]) + 1, k + 1, ps)
  {
    var t := ts[k];
    var at, n := i + Len(t.pattern), i + LenTop(t);
    var cut := CutGoes(p, unquote, s, i, t, k, acc);
    ps := PredicatesGo(p, unquote, s, at, t.predicates, n, k + 1, acc + cut);
    CutCarries(ts, |s|, acc, cut, ps, k, at + 1);
  }

  /** The pattern of a line, before its predicates join it. */
  lemma {:induction false} CutGoes(p: (nat, nat, Found) -> bool, unquote: G.Unquote, s: string, i: nat, t: Top, k: nat, acc: Found)
    returns (cut: Found)
    requires ShowsTop(s, i, t) && IsTop(unquote, t) && k < U32_MAX && EndsLine(s, i + LenTop(t))
    requires Goes(p, unquote, s, |s|, None) && p(i, k, acc)
    ensures var at := i + Len(t.pattern);
      cut != [] && AllAre(cut, G.FallbackPattern(k, i, at + 1)) && p(at + 1, k + 1, acc + cut)
  {
    BlankBefore(s, i + Len(t.pattern), t.predicates, i + LenTop(t));
    cut := PatternGoes(p, unquote, s, i, |s|, t.pattern, k, None, acc);
  }

  lemma {:induction false} CutCarries(ts: seq<Top>, total: nat, acc: Found, cut: Found, ps: Found, k: nat, j: nat)
    requires k < |ts| && LenFrom(ts, k) <= total && G.Below(acc, k)
    requires cut != [] && AllAre(cut, G.FallbackPattern(k, total - LenFrom(ts, k), j))
    requires var n := total - LenFrom(ts, k) + LenTop(ts[k]);
      ps == Joining(acc + cut, ts[k].predicates, n) && (ts[k].predicates == [] ==> j == n + 1)
    ensures Grows(ts, total, acc, ps, k, k + 1)
  {
    var both, high := acc + cut, k + 1;
    assert both[|both| - 1] == cut[|cut| - 1];
    forall m: nat | m < |ps|
      ensures Placed(ts, total, acc, ps, m, k, high)
    {
      assert both[m] == if m < |acc| then acc[m] else cut[m - |acc|];
    }
    assert both[|acc|] == cut[0];
    assert ps[|acc|].index == k;
    assert Carried(ps, |acc|, k);
  }

  /** One line, and what is left behind it. */
  lemma {:induction false} LineGoes(p: (nat, nat, Found) -> bool, unquote: G.Unquote, s: string, i: nat, ts: seq<Top>, k: nat, acc: Found)
    returns (j: nat, ps: Found)
    requires k < |ts| && Behind(s, i, ts, k) == Some(|s|) && AreTops(unquote, ts)
    requires k < U32_MAX && Goes(p, unquote, s, |s|, None) && p(i, k, acc) && G.Below(acc, k)
    ensures Behind(s, j, ts, k + 1) == Some(|s|) && p(j, k + 1, ps)
    ensures Grows(ts, |s|, acc, ps, k, k + 1) && G.Below(ps, k + 1)
  {
    j := i + LenTop(ts[k]) + 1;
    LineEnd(unquote, s, i, ts, k);
    ps := TopGoes(p, unquote, s, i, ts, k, acc);
    forall m | 0 <= m < |ps|
      ensures ps[m].index < k + 1
    {
      assert Placed(ts, |s|, acc, ps, m, k, k + 1);
    }
  }

  lemma {:induction false} LinesGo(p: (nat, nat, Found) -> bool, unquote: G.Unquote, s: string, i: nat, ts: seq<Top>, k: nat, acc: Found)
    returns (ps: Found)
    requires k <= |ts| <= U32_MAX && Behind(s, i, ts, k) == Some(|s|) && AreTops(unquote, ts)
    requires Goes(p, unquote, s, |s|, None) && p(i, k, acc) && G.Below(acc, k)
    ensures p(|s|, |ts|, ps)
    ensures Grows(ts, |s|, acc, ps, k, |ts|)
    decreases |ts| - k
  {
    if k == |ts| {
      ps := acc;
    } else {
      var j, first := LineGoes(p, unquote, s, i, ts, k, acc);
      ps := LinesGo(p, unquote, s, j, ts, k + 1, first);
      GrowsOneMore(ts, |s|, acc, first, ps, k, |ts|);
    }
  }

  lemma {:induction false} GrowsOneMore(ts: seq<Top>, total: nat, acc: Found, first: Found, ps: Found, low: int, high: int)
    requires Grows(ts, total, acc, first, low, low + 1) && Grows(ts, total, first, ps, low + 1, high) && low < high
    ensures Grows(ts, total, acc, ps, low, high)
  {
    forall k: nat | k < |ps|
      ensures Placed(ts, total, acc, ps, k, low, high)
    {
      assert Placed(ts, total, first, ps, k, low + 1, high);
      if k < |first| {
        assert Placed(ts, total, acc, first, k, low, low + 1);
      }
    }
    forall g | low <= g < high
      ensures Carried(ps, |acc|, g)
    {
      if g == low {
        assert Carried(first, |acc|, low);
        var k: nat :| |acc| <= k < |first| && first[k].index == low;
        assert Placed(ts, total, first, ps, k, low + 1, high);
        assert ps[k].index == low;
      } else {
        assert Carried(ps, |first|, g);
      }
    }
  }

  lemma {:induction false} QueryCollected(unquote: G.Unquote, s: string, ts: seq<Top>) returns (ps: Found)
    requires Behind(s, 0, ts, 0) == Some(|s|) && AreTops(unquote, ts) && |ts| <= U32_MAX
    ensures G.Collect(unquote, s, 0, |s|, 0, None, []) == Some((ps, |ts|)) && Grows(ts, |s|, [], ps, 0, |ts|)
  {
    var r := G.Collect(unquote, s, 0, |s|, 0, None, []);
    EndsGoes(unquote, s, |s|, None, r);
    ps := LinesGo(Ends(unquote, s, |s|, None, r), unquote, s, 0, ts, 0, []);
  }

  /** Every query that can be printed is accepted by the validator, and the grouping parser
  numbers its top-level patterns 0, 1, ... in source order: each number is carried, by
  every branch if the pattern is an alternation, and every pattern that carries it has the
  span of that line; spans of different numbers are disjoint and increase, and the pattern
  count is the number of patterns printed. */
  lemma {:induction false} PrintedQueryIsRead(unquote: G.Unquote, ts: seq<Top>) returns (ps: Found)
    requires AreTops(unquote, ts) && |PrintQuery(ts)| <= U32_MAX
    ensures V.Query(Accepts(unquote), PrintQuery(ts), 0) == V.Good(|PrintQuery(ts)|)
    ensures G.Collect(unquote, PrintQuery(ts), 0, |PrintQuery(ts)|, 0, None, []) == Some((ps, |ts|))
    ensures Grows(ts, |PrintQuery(ts)|, [], ps, 0, |ts|) && G.Numbered(ps, |ts|, |PrintQuery(ts)|)
    ensures forall count :: G.IsCount(ps, count) ==> count == |ts|
  {
    var s := PrintQuery(ts);
    PrintedShows(s, ts);
    QueryAccepted(unquote, s, ts);
    EnoughNumbers(ts, 0);
    ps := QueryCollected(unquote, s, ts);
    G.CollectNumbers(unquote, s, 0, |s|, 0, []);
    CountIsLength(ts, |s|, ps);
  }

  lemma {:induction false} PrintedShows(s: string, ts: seq<Top>)
    requires s == PrintQuery(ts)
    ensures Behind(s, 0, ts, 0) == Some(|s|)
  {
    forall k: nat | k < |s|
      ensures Reads(s, 0, s, k)
    {
    }
    QueryPrinted(s, 0, ts, 0, |s|);
  }

  /** Each line is at least a byte long. */
  lemma {:induction false} EnoughNumbers(ts: seq<Top>, k: nat)
    requires k <= |ts|
    ensures |ts| - k <= LenFrom(ts, k)
    decreases |ts| - k
  {
    if k < |ts| {
      EnoughNumbers(ts, k + 1);
    }
  }

  lemma {:induction false} CountIsLength(ts: seq<Top>, total: nat, ps: Found)
    requires Grows(ts, total, [], ps, 0, |ts|) && |ts| <= U32_MAX
    ensures forall count :: G.IsCount(ps, count) ==> count == |ts|
  {
    forall count | G.IsCount(ps, count)
      ensures count == |ts|
    {
      forall k: nat | k < |ps|
        ensures 0 <= ps[k].index < |ts|
      {
        assert Placed(ts, total, [], ps, k, 0, |ts|);
      }
      if |ts| > 0 {
        assert Carried(ps, 0, |ts| - 1);
      }
    }
  }

  /** The validator accepts `[*](a)`, whose alternation carries no number in the end. */
  lemma {:induction false} EmptyChoiceIsAccepted(unquote: G.Unquote)
    ensures V.Query(Accepts(unquote), "[*](a)", 0) == V.Good(6)
    ensures G.Collect(unquote, "[*](a)", 0, 6, 0, None, []) == Some(([G.FallbackPattern(1, 3, 6)], 2))
  {
    var s, u := "[*](a)", Accepts(unquote);
    G.EmptyChoiceSkipsNumber(unquote);
    StarAccepted(u, s);
    NodeAAccepted(u, s);
    assert SpaceFrom(s, 0, 6) == 0 && SpaceFrom(s, 3, 6) == 3;
    assert V.Query(u, s, 3) == V.Good(6);
  }

  lemma {:induction false} StarAccepted(u: string -> bool, s: string)
    requires s == "[*](a)"
    ensures V.Pattern(u, s, 0) == V.Good(3)
  {
    assert s[0] == '[' && s[1] == '*' && s[2] == ']' && s[3] == '(';
    assert V.Suffix(s, 2) == V.Good(2) && V.Suffix(s, 3) == V.Good(3);
    assert V.Pattern(u, s, 1) == V.Good(2);
    assert V.Alternatives(u, s, 2, true) == V.Good(3);
    assert V.Atom(u, s, 0) == V.Good(3);
  }

  lemma {:induction false} NodeAAccepted(u: string -> bool, s: string)
    requires s == "[*](a)"
    ensures V.Pattern(u, s, 3) == V.Good(6)
  {
    assert s[3] == '(' && s[4] == 'a' && s[5] == ')';
    assert IdentFrom(s, 4, 6) == 5;
    assert V.Head(u, s, 4) == V.Good(5);
    assert V.Children(u, s, 5) == V.Good(6);
    assert V.Paren(u, s, 3) == V.Good(6);
  }
}
