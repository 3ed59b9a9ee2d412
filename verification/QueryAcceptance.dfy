/** Reading a printed query back: the validator accepts it whole. */
module QueryAcceptance {
  import opened Values
  import opened QueryText
  import opened QueryPrinter
  import V = QueryValidator
  import G = QueryGroups

  ghost function Accepts(unquote: G.Unquote): string -> bool { v => unquote(v).Some? }

  // ---------------------------------------------------------------- tokens

  /** A byte that ends every blank run and every suffix. */
  predicate Firm(c: char) { !IsSpace(c) && c != ';' && !IsQuantifier(c) && c != '@' }

  /** Nothing at `k` goes on with the pattern printed before it. */
  predicate Settled(s: string, k: nat, end: nat) {
    && k <= end <= |s|
    && (k == end || s[k] == ')' || s[k] == ']' || ((s[k] == ' ' || s[k] == '\n') && (k + 1 == end || Firm(s[k + 1]))))
  }

  /** The first byte behind the blank at `k`, if there is one. */
  function Next(s: string, k: nat, end: nat): (r: nat)
    requires Settled(s, k, end)
    ensures k <= r <= end
  {
    if k == end || s[k] == ')' || s[k] == ']' then k else k + 1
  }

  lemma {:induction false} SettledSpace(s: string, k: nat, end: nat)
    requires Settled(s, k, end)
    ensures SpaceFrom(s, k, end) == Next(s, k, end)
    ensures Next(s, k, end) < end ==> Firm(s[Next(s, k, end)])
    ensures k < end ==> !IsIdentContinue(s[k])
  {
  }

  lemma {:induction false} ContinueAt(s: string, i: nat, n: string, k: nat, end: nat)
    requires At(s, i, n) && k <= |n| && i + |n| <= end <= |s|
    requires forall j :: 0 <= j < |n| ==> IsIdentContinue(n[j])
    requires i + |n| == end || !IsIdentContinue(s[i + |n|])
    ensures ContinueFrom(s, i + k, end) == i + |n|
    decreases |n| - k
  {
    if k < |n| {
      CharAt(s, i, n, k);
      ContinueAt(s, i, n, k + 1, end);
    }
  }

  lemma {:induction false} IdentAt(s: string, i: nat, n: string, end: nat)
    requires At(s, i, n) && IsIdent(n) && i + |n| <= end <= |s|
    requires i + |n| == end || !IsIdentContinue(s[i + |n|])
    ensures IdentFrom(s, i, end) == i + |n| && s[i] == n[0] && IsIdentStart(s[i])
  {
    CharAt(s, i, n, 0);
    ContinueAt(s, i, n, 1, end);
  }

  lemma {:induction false} QuoteFrom(s: string, i: nat, t: string, k: nat, escaped: bool)
    requires At(s, i, t) && k <= |t| && Closes(t, k, escaped)
    ensures QuotedFrom(s, i + k, escaped) == i + |t|
    decreases |t| - k
  {
    CharAt(s, i, t, k);
    if t[k] != '\"' || escaped {
      QuoteFrom(s, i, t, k + 1, t[k] == '\\' && !escaped);
    }
  }

  lemma {:induction false} LiteralAt(unquote: G.Unquote, s: string, i: nat, t: string)
    requires At(s, i, t) && IsLiteral(unquote, t)
    ensures s[i] == '\"' && QuotedFrom(s, i + 1, false) == i + |t| && s[i..i + |t|] == t
    ensures V.Quoted(Accepts(unquote), s, i) == V.Good(i + |t|)
  {
    CharAt(s, i, t, 0);
    QuoteFrom(s, i, t, 1, false);
    CharAt(s, i, t, |t| - 1);
    SliceAt(s, i, t);
  }

  lemma {:induction false} SliceAt(s: string, i: nat, t: string)
    requires At(s, i, t)
    ensures s[i..i + |t|] == t
  {
    forall k: nat | k < |t|
      ensures s[i..i + |t|][k] == t[k]
    {
      assert Reads(s, i, t, k);
    }
  }

  // ---------------------------------------------------------------- suffixes

  /** The first of some captures. */
  lemma {:induction false} CaptureAt(s: string, i: nat, cs: seq<string>, end: nat)
    requires cs != [] && ShowsCaptures(s, i, cs) && Settled(s, i + LenCaptures(cs), end) && AreIdents(cs)
    ensures i + 2 < end && s[i] == ' ' && s[i + 1] == '@' && IsIdentStart(s[i + 2])
    ensures SpaceFrom(s, i, end) == i + 1 && IdentFrom(s, i + 2, end) == i + 2 + |cs[0]|
  {
    var k := i + 2 + |cs[0]|;
    if cs[1..] == [] {
      SettledSpace(s, k, end);
    } else {
      assert ShowsCaptures(s, k, cs[1..]);
    }
    IdentAt(s, i + 2, cs[0], end);
  }

  lemma {:induction false} CapturesAccepted(s: string, i: nat, cs: seq<string>)
    requires ShowsCaptures(s, i, cs) && Settled(s, i + LenCaptures(cs), |s|) && AreIdents(cs)
    ensures V.Suffix(s, i) == V.Good(Next(s, i + LenCaptures(cs), |s|))
    decreases |cs|
  {
    if cs == [] {
      SettledSpace(s, i, |s|);
    } else {
      CaptureAt(s, i, cs, |s|);
      CapturesAccepted(s, i + 2 + |cs[0]|, cs[1..]);
    }
  }

  lemma {:induction false} SuffixAccepted(s: string, i: nat, p: Pattern)
    requires ShowsSuffix(s, i, p) && Settled(s, i + LenSuffix(p), |s|) && IsSuffix(p)
    ensures V.Suffix(s, i) == V.Good(Next(s, i + LenSuffix(p), |s|))
  {
    CapturesAccepted(s, if p.quantifier.Some? then i + 1 else i, p.captures);
  }

  lemma {:induction false} CaptureReads(s: string, i: nat, k: nat, end: nat)
    requires i + 2 < end <= |s| && s[i] == ' ' && s[i + 1] == '@' && IsIdentStart(s[i + 2]) && IdentFrom(s, i + 2, end) == k
    ensures SpaceFrom(s, i, end) == i + 1 == G.QuantifierFrom(s, i, end)
    ensures G.CapturesFrom(s, i + 1, end) == G.CapturesFrom(s, G.QuantifierFrom(s, k, end), end)
  {
    assert G.IsCapture(s, i + 1, end);
  }

  lemma {:induction false} NoCapture(s: string, i: nat, end: nat)
    requires Settled(s, i, end)
    ensures SpaceFrom(s, i, end) == Next(s, i, end) == G.QuantifierFrom(s, i, end)
    ensures G.CapturesFrom(s, Next(s, i, end), end) == Next(s, i, end)
  {
    SettledSpace(s, i, end);
  }

  lemma {:induction false} CapturesGrouped(s: string, i: nat, cs: seq<string>, end: nat, n: nat)
    requires ShowsCaptures(s, i, cs) && n == i + LenCaptures(cs) && Settled(s, n, end) && AreIdents(cs)
    ensures G.QuantifierFrom(s, i, end) == SpaceFrom(s, i, end)
    ensures G.CapturesFrom(s, SpaceFrom(s, i, end), end) == Next(s, n, end)
    decreases |cs|
  {
    if cs == [] {
      NoCapture(s, i, end);
    } else {
      var k := i + 2 + |cs[0]|;
      OneCapture(s, i, cs, end, k);
      CapturesGrouped(s, k, cs[1..], end, n);
    }
  }

  /** Reading on behind the first capture is reading on before it. */
  lemma {:induction false} OneCapture(s: string, i: nat, cs: seq<string>, end: nat, k: nat)
    requires cs != [] && ShowsCaptures(s, i, cs) && Settled(s, i + LenCaptures(cs), end) && AreIdents(cs)
    requires k == i + 2 + |cs[0]|
    ensures k <= end && G.QuantifierFrom(s, i, end) == SpaceFrom(s, i, end)
    ensures G.CapturesFrom(s, SpaceFrom(s, i, end), end) == G.CapturesFrom(s, G.QuantifierFrom(s, k, end), end)
    ensures ShowsCaptures(s, k, cs[1..]) && AreIdents(cs[1..]) && i + LenCaptures(cs) == k + LenCaptures(cs[1..])
  {
    CaptureAt(s, i, cs, end);
    CaptureReads(s, i, k, end);
  }

  lemma {:induction false} SuffixGrouped(s: string, i: nat, p: Pattern, end: nat)
    requires ShowsSuffix(s, i, p) && Settled(s, i + LenSuffix(p), end) && IsSuffix(p)
    ensures G.SuffixFrom(s, i, end) == Next(s, i + LenSuffix(p), end)
  {
    if p.quantifier.Some? {
      assert SpaceFrom(s, i, end) == i;
      assert G.QuantifierFrom(s, i, end) == SpaceFrom(s, i + 1, end);
      CapturesGrouped(s, i + 1, p.captures, end, i + LenSuffix(p));
    } else {
      CapturesGrouped(s, i, p.captures, end, i + LenSuffix(p));
    }
  }

  // ---------------------------------------------------------------- one step of the validator

  lemma {:induction false} PatternReads(u: string -> bool, s: string, i: nat, k: nat)
    requires i < |s| && s[i] in ['(', '[', '\"'] && V.Atom(u, s, i) == V.Good(k)
    ensures V.Pattern(u, s, i) == V.Suffix(s, k)
  {
    assert SpaceFrom(s, i, |s|) == i;
  }

  lemma {:induction false} NodeReads(u: string -> bool, s: string, i: nat, k: nat)
    requires i + 1 < |s| && IsIdentStart(s[i + 1]) && V.Head(u, s, i + 1) == V.Good(k)
    ensures V.Paren(u, s, i) == V.Children(u, s, k)
  {
    assert SpaceFrom(s, i + 1, |s|) == i + 1;
    assert V.Node(u, s, i + 1) == V.Children(u, s, k);
  }

  lemma {:induction false} PredicateReads(u: string -> bool, s: string, i: nat, k: nat)
    requires i + 2 < |s| && s[i + 1] == '#' && IsIdentStart(s[i + 2]) && IdentFrom(s, i + 2, |s|) == k
    ensures V.Paren(u, s, i) == V.Arguments(u, s, k)
  {
    assert SpaceFrom(s, i + 1, |s|) == i + 1;
    assert V.Predicate(u, s, i + 1) == V.Arguments(u, s, k);
  }

  lemma {:induction false} ChildReads(u: string -> bool, s: string, i: nat)
    requires i < |s| && s[i] in ['(', '[', '\"']
    ensures V.Child(u, s, i) == V.Pattern(u, s, i)
  {
  }

  lemma {:induction false} FieldReads(u: string -> bool, s: string, i: nat, colon: nat)
    requires i < colon && colon + 2 < |s| && IsIdentStart(s[i]) && s[i] != '_' && IdentFrom(s, i, |s|) == colon
    requires s[colon] == ':' && s[colon + 1] == ' ' && s[colon + 2] in ['(', '[', '\"']
    ensures V.Child(u, s, i) == V.Pattern(u, s, colon + 2)
  {
    assert SpaceFrom(s, colon, |s|) == colon && SpaceFrom(s, colon + 1, |s|) == colon + 2;
    assert V.Value(u, s, colon) == V.Pattern(u, s, colon + 2);
  }

  // ---------------------------------------------------------------- predicates

  lemma {:induction false} FirstArgument(unquote: G.Unquote, s: string, i: nat, args: seq<Argument>)
    requires ShowsArguments(s, i, args) && (forall k :: 0 <= k < |args| ==> IsArgument(unquote, args[k]))
    requires i + LenArguments(args) < |s| && s[i + LenArguments(args)] == ')'
    ensures if args == [] then s[i] == ')' else s[i] == ' ' && i + 1 < |s| && !IsSpace(s[i + 1]) && s[i + 1] !in [';', ')']
    ensures !IsIdentContinue(s[i])
  {
    if args != [] {
      match args[0] {
        case Capture(_) =>
        case Text(text) => CharAt(s, i + 1, text, 0);
        case Symbol(name) => CharAt(s, i + 1, name, 0);
      }
    }
  }

  lemma {:induction false} ArgumentAccepted(unquote: G.Unquote, s: string, i: nat, a: Argument)
    requires ShowsArgument(s, i, a) && IsArgument(unquote, a)
    requires i + LenArgument(a) < |s| && !IsIdentContinue(s[i + LenArgument(a)])
    ensures i < |s| && V.Argument(Accepts(unquote), s, i) == V.Good(i + LenArgument(a))
  {
    match a {
      case Capture(name) => IdentAt(s, i + 1, name, |s|);
      case Text(text) => LiteralAt(unquote, s, i, text);
      case Symbol(name) => IdentAt(s, i, name, |s|);
    }
  }

  lemma {:induction false} ArgumentsAccepted(unquote: G.Unquote, s: string, i: nat, args: seq<Argument>)
    requires ShowsArguments(s, i, args) && (forall k :: 0 <= k < |args| ==> IsArgument(unquote, args[k]))
    requires i + LenArguments(args) < |s| && s[i + LenArguments(args)] == ')'
    ensures V.Arguments(Accepts(unquote), s, i) == V.Good(i + LenArguments(args) + 1)
    decreases args
  {
    FirstArgument(unquote, s, i, args);
    if args == [] {
      assert SpaceFrom(s, i, |s|) == i;
    } else {
      OneArgument(unquote, s, i, args);
      ArgumentsAccepted(unquote, s, i + 1 + LenArgument(args[0]), args[1..]);
    }
  }

  lemma {:induction false} ArgumentsStep(u: string -> bool, s: string, i: nat, k: nat)
    requires i + 1 < |s| && s[i] == ' ' && !IsSpace(s[i + 1]) && s[i + 1] !in [';', ')'] && V.Argument(u, s, i + 1) == V.Good(k)
    ensures V.Arguments(u, s, i) == V.Arguments(u, s, k)
  {
    assert SpaceFrom(s, i, |s|) == i + 1;
  }

  /** Reading on behind the first argument is reading on before it. */
  lemma {:induction false} OneArgument(unquote: G.Unquote, s: string, i: nat, args: seq<Argument>)
    requires args != [] && ShowsArguments(s, i, args) && (forall k :: 0 <= k < |args| ==> IsArgument(unquote, args[k]))
    requires i + LenArguments(args) < |s| && s[i + LenArguments(args)] == ')'
    ensures var k := i + 1 + LenArgument(args[0]); V.Arguments(Accepts(unquote), s, i) == V.Arguments(Accepts(unquote), s, k)
  {
    var k := i + 1 + LenArgument(args[0]);
    FirstArgument(unquote, s, i, args);
    FirstArgument(unquote, s, k, args[1..]);
    ArgumentAccepted(unquote, s, i + 1, args[0]);
    ArgumentsStep(Accepts(unquote), s, i, k);
  }

  lemma {:induction false} PredicateAccepted(unquote: G.Unquote, s: string, i: nat, p: Predicate)
    requires ShowsPredicate(s, i, p) && IsPredicate(unquote, p)
    ensures V.Paren(Accepts(unquote), s, i) == V.Good(i + LenPredicate(p))
  {
    var k := i + 2 + |p.operator|;
    FirstArgument(unquote, s, k, p.arguments);
    IdentAt(s, i + 2, p.operator, |s|);
    PredicateReads(Accepts(unquote), s, i, k);
    ArgumentsAccepted(unquote, s, k, p.arguments);
  }

  // ---------------------------------------------------------------- reading on

  /** From `i` the validator reads one pattern and goes on at `j`. */
  ghost predicate ReadsTo(u: string -> bool, s: string, i: nat, j: nat) {
    i < |s| && s[i] in ['(', '[', '\"'] && j <= |s| && V.Pattern(u, s, i) == V.Good(j)
  }

  predicate Blank(s: string, end: nat, i: nat) { i < end <= |s| && IsSpace(s[i]) }

  /** A property of positions that reading on keeps. */
  ghost predicate Kept(p: nat -> bool, u: string -> bool, s: string) {
    && (forall i: nat, j: nat :: p(i) && ReadsTo(u, s, i, j) ==> p(j))
    && (forall i: nat {:trigger Blank(s, |s|, i), p(i)} :: p(i) && Blank(s, |s|, i) ==> p(i + 1))
  }

  lemma {:induction false} ReadOn(p: nat -> bool, u: string -> bool, s: string, i: nat, j: nat)
    requires Kept(p, u, s) && p(i) && ReadsTo(u, s, i, j)
    ensures p(j)
  {
  }

  predicate ArePredicates(unquote: G.Unquote, ps: seq<Predicate>) { forall k :: 0 <= k < |ps| ==> IsPredicate(unquote, ps[k]) }

  /** A predicate that ends at `k` is read as a pattern without a suffix. */
  lemma {:induction false} PredicateReadsTo(u: string -> bool, s: string, i: nat, k: nat)
    requires i < |s| && s[i] == '(' && V.Paren(u, s, i) == V.Good(k) && Settled(s, k, |s|)
    ensures ReadsTo(u, s, i, Next(s, k, |s|))
  {
    PatternReads(u, s, i, k);
    SettledSpace(s, k, |s|);
  }

  predicate EndsLine(s: string, n: nat) { n < |s| && s[n] == '\n' && Settled(s, n, |s|) }

  /** Where the last predicates end that `s` reads at `i`: before the end of the line or of a group. */
  function PredicatesBehind(s: string, i: nat, ps: seq<Predicate>): Option<nat> {
    var n := i + LenPredicates(ps);
    if ShowsPredicates(s, i, ps) && (EndsLine(s, n) || (n < |s| && s[n] == ')')) then Some(n) else None
  }

  /** What stands before the rest of them. */
  lemma {:induction false} BlankBefore(s: string, i: nat, ps: seq<Predicate>, n: nat)
    requires PredicatesBehind(s, i, ps) == Some(n)
    ensures Settled(s, i, |s|) && n < |s| && Settled(s, n, |s|) && (ps == [] ==> i == n)
    ensures ps != [] || s[n] == '\n' ==> Blank(s, |s|, i) && Next(s, i, |s|) == i + 1
    ensures ps != [] ==> i + 1 < |s| && s[i + 1] == '(' && PredicatesBehind(s, i + 1 + LenPredicate(ps[0]), ps[1..]) == Some(n)
  {
  }

  lemma {:induction false} PredicatesRead(p: nat -> bool, unquote: G.Unquote, s: string, i: nat, ps: seq<Predicate>, n: nat)
    requires PredicatesBehind(s, i, ps) == Some(n) && ArePredicates(unquote, ps) && Settled(s, i, |s|) && Settled(s, n, |s|)
    requires Kept(p, Accepts(unquote), s) && p(Next(s, i, |s|))
    ensures p(Next(s, n, |s|))
    decreases ps
  {
    BlankBefore(s, i, ps, n);
    if ps != [] {
      var k := i + 1 + LenPredicate(ps[0]);
      BlankBefore(s, k, ps[1..], n);
      PredicateAccepted(unquote, s, i + 1, ps[0]);
      PredicateReadsTo(Accepts(unquote), s, i + 1, k);
      PredicatesRead(p, unquote, s, k, ps[1..], n);
    }
  }

  // ---------------------------------------------------------------- the validator accepts

  /** How a pattern's text begins. */
  lemma {:induction false} FirstByte(unquote: G.Unquote, s: string, i: nat, a: Atom)
    requires ShowsAtom(s, i, a) && IsAtom(unquote, a)
    ensures i < |s| && s[i] == if a.Choice? then '[' else if a.Literal? then '\"' else '('
    ensures LenAtom(a) >= 2
  {
    if a.Literal? {
      LiteralAt(unquote, s, i, a.text);
    }
  }

  lemma {:induction false} PatternAccepted(unquote: G.Unquote, s: string, i: nat, p: Pattern)
    requires Shows(s, i, p) && IsPattern(unquote, p) && Settled(s, i + Len(p), |s|)
    ensures V.Pattern(Accepts(unquote), s, i) == V.Good(Next(s, i + Len(p), |s|))
    decreases p, 0
  {
    hide IsAtom, ShowsAtom, LenAtom, ShowsSuffix;
    var k := i + LenAtom(p.atom);
    AtomAccepted(unquote, s, i, p.atom);
    FirstByte(unquote, s, i, p.atom);
    PatternReads(Accepts(unquote), s, i, k);
    SuffixAccepted(s, k, p);
  }

  lemma {:induction false} AtomAccepted(unquote: G.Unquote, s: string, i: nat, a: Atom)
    requires ShowsAtom(s, i, a) && IsAtom(unquote, a)
    ensures i < |s| && V.Atom(Accepts(unquote), s, i) == V.Good(i + LenAtom(a))
    decreases a
  {
    FirstByte(unquote, s, i, a);
    match a {
      case Node(_, _) => NodeAccepted(unquote, s, i, a);
      case Literal(text) => LiteralAt(unquote, s, i, text);
      case Choice(branches) => BranchesAccepted(unquote, s, i + 1, branches, false);
      case Group(_, _, _) => GroupAccepted(unquote, s, i, a);
    }
  }

  lemma {:induction false} NodeAccepted(unquote: G.Unquote, s: string, i: nat, a: Atom)
    requires a.Node? && ShowsAtom(s, i, a) && IsAtom(unquote, a)
    ensures i < |s| && V.Paren(Accepts(unquote), s, i) == V.Good(i + LenAtom(a))
    decreases a, 0
  {
    var k := i + 1 + |a.name|;
    FirstChild(unquote, s, k, a.children);
    HeadAccepted(unquote, s, i + 1, a.name, k);
    CharAt(s, i + 1, a.name, 0);
    NodeReads(Accepts(unquote), s, i, k);
    ChildrenAccepted(unquote, s, k, a.children);
  }

  /** The root of a node expression, followed by its first child or its end. */
  lemma {:induction false} HeadAccepted(unquote: G.Unquote, s: string, i: nat, name: string, k: nat)
    requires At(s, i, name) && IsName(name) && name != "MISSING" && k == i + |name| < |s|
    requires s[k] == ')' || (s[k] == ' ' && k + 1 < |s| && Firm(s[k + 1]) && s[k + 1] != '/')
    ensures V.Head(Accepts(unquote), s, i) == V.Good(k)
  {
    IdentAt(s, i, name, |s|);
    SliceAt(s, i, name);
    assert V.Root(Accepts(unquote), s, i) == V.Good(k);
    assert SpaceFrom(s, k, |s|) == if s[k] == ')' then k else k + 1;
  }

  predicate AreChildren(unquote: G.Unquote, cs: seq<Child>) {
    forall k :: 0 <= k < |cs| ==> IsPattern(unquote, cs[k].pattern) && (cs[k].field.Some? ==> IsName(cs[k].field.value))
  }

  /** What stands at `i` before children, and that each child is settled by what follows. */
  lemma {:induction false} FirstChild(unquote: G.Unquote, s: string, i: nat, cs: seq<Child>)
    requires ShowsChildren(s, i, cs) && AreChildren(unquote, cs) && i + LenChildren(cs) < |s| && s[i + LenChildren(cs)] == ')'
    ensures if cs == [] then s[i] == ')' else s[i] == ' ' && i + 1 < |s| && Firm(s[i + 1]) && s[i + 1] !in ['/', ')']
    ensures Settled(s, i, |s|)
  {
    if cs != [] {
      var c := cs[0];
      assert ShowsChild(s, i + 1, c);
      if c.field.Some? {
        CharAt(s, i + 1, c.field.value, 0);
      } else {
        assert Shows(s, i + 1, c.pattern);
        FirstByte(unquote, s, i + 1, c.pattern.atom);
      }
    }
  }

  lemma {:induction false} ChildrenAccepted(unquote: G.Unquote, s: string, i: nat, cs: seq<Child>)
    requires ShowsChildren(s, i, cs) && AreChildren(unquote, cs) && i + LenChildren(cs) < |s| && s[i + LenChildren(cs)] == ')'
    ensures V.Children(Accepts(unquote), s, i) == V.Good(i + LenChildren(cs) + 1)
    decreases cs
  {
    FirstChild(unquote, s, i, cs);
    SettledSpace(s, i, |s|);
    if cs != [] {
      var k := i + 1 + LenChild(cs[0]);
      FirstChild(unquote, s, k, cs[1..]);
      ChildAccepted(unquote, s, i + 1, cs[0]);
      ChildrenAccepted(unquote, s, k, cs[1..]);
      SettledSpace(s, k, |s|);
      ChildrenSkip(unquote, s, k);
    }
  }

  /** Children are read the same from the blanks before them. */
  lemma {:induction false} ChildrenSkip(unquote: G.Unquote, s: string, k: nat)
    requires k <= |s|
    ensures V.Children(Accepts(unquote), s, SpaceFrom(s, k, |s|)) == V.Children(Accepts(unquote), s, k)
  {
  }

  lemma {:induction false} ChildAccepted(unquote: G.Unquote, s: string, i: nat, c: Child)
    requires ShowsChild(s, i, c) && IsPattern(unquote, c.pattern) && (c.field.Some? ==> IsName(c.field.value))
    requires Settled(s, i + LenChild(c), |s|)
    ensures i < |s| && V.Child(Accepts(unquote), s, i) == V.Good(Next(s, i + LenChild(c), |s|))
    decreases c
  {
    var k := i + LenField(c);
    assert Shows(s, k, c.pattern) && k + Len(c.pattern) == i + LenChild(c);
    PatternAccepted(unquote, s, k, c.pattern);
    FirstByte(unquote, s, k, c.pattern.atom);
    ChildIsPattern(unquote, s, i, c);
  }

  /** The field, if there is one, is read, and then the pattern. */
  lemma {:induction false} ChildIsPattern(unquote: G.Unquote, s: string, i: nat, c: Child)
    requires i + LenField(c) < |s| && s[i + LenField(c)] in ['(', '[', '\"']
    requires c.field.Some? ==> IsName(c.field.value) && At(s, i, c.field.value)
    requires c.field.Some? ==> s[i + |c.field.value|] == ':' && s[i + |c.field.value| + 1] == ' '
    ensures V.Child(Accepts(unquote), s, i) == V.Pattern(Accepts(unquote), s, i + LenField(c))
  {
    if c.field.Some? {
      IdentAt(s, i, c.field.value, |s|);
      FieldReads(Accepts(unquote), s, i, i + |c.field.value|);
    } else {
      ChildReads(Accepts(unquote), s, i);
    }
  }

  predicate AreBranches(unquote: G.Unquote, bs: seq<Pattern>) { forall k :: 0 <= k < |bs| ==> IsPattern(unquote, bs[k]) }

  lemma {:induction false} FirstBranch(unquote: G.Unquote, s: string, i: nat, bs: seq<Pattern>)
    requires ShowsBranches(s, i, bs) && AreBranches(unquote, bs) && i + LenBranches(bs) < |s| && s[i + LenBranches(bs)] == ']'
    ensures i < |s| && Firm(s[i]) && SpaceFrom(s, i, |s|) == i && s[i] != ')' && (bs == [] <==> s[i] == ']')
    ensures bs != [] ==> Settled(s, i + Len(bs[0]), |s|) && Next(s, i + Len(bs[0]), |s|) == i + Len(bs[0]) + 1
  {
    hide IsAtom, ShowsAtom, LenAtom;
    if bs != [] {
      var k, rest := i + Len(bs[0]) + 1, bs[1..];
      assert Shows(s, i, bs[0]);
      FirstByte(unquote, s, i, bs[0].atom);
      if rest != [] {
        assert ShowsBranches(s, k, rest);
        assert Shows(s, k, rest[0]);
        FirstByte(unquote, s, k, rest[0].atom);
      }
    }
  }

  lemma {:induction false} BranchesAccepted(unquote: G.Unquote, s: string, i: nat, bs: seq<Pattern>, any: bool)
    requires ShowsBranches(s, i, bs) && AreBranches(unquote, bs) && i + LenBranches(bs) < |s| && s[i + LenBranches(bs)] == ']'
    requires any || bs != []
    ensures V.Alternatives(Accepts(unquote), s, i, any) == V.Good(i + LenBranches(bs) + 1)
    decreases bs
  {
    hide IsAtom, ShowsAtom, LenAtom, V.Pattern;
    FirstBranch(unquote, s, i, bs);
    if bs != [] {
      PatternAccepted(unquote, s, i, bs[0]);
      BranchesAccepted(unquote, s, i + Len(bs[0]) + 1, bs[1..], true);
    }
  }

  lemma {:induction false} PatternRead(unquote: G.Unquote, s: string, i: nat, p: Pattern)
    requires Shows(s, i, p) && IsPattern(unquote, p) && Settled(s, i + Len(p), |s|)
    ensures ReadsTo(Accepts(unquote), s, i, Next(s, i + Len(p), |s|))
    decreases p, 1
  {
    PatternAccepted(unquote, s, i, p);
    FirstByte(unquote, s, i, p.atom);
  }

  // ---------------------------------------------------------------- groups

  /** Reading the elements of a group on from `i` gives `r`: those of a group that begins with
  a pattern, or the children of one that begins with a literal. */
  ghost function GroupGives(u: string -> bool, s: string, r: V.Parsed, children: bool): nat -> bool {
    (i: nat) => i <= |s| && r == if children then V.Children(u, s, i) else V.Group(u, s, i, true)
  }

  lemma {:induction false} GroupGivesKept(u: string -> bool, s: string, r: V.Parsed, children: bool)
    ensures Kept(GroupGives(u, s, r, children), u, s)
  {
    var p := GroupGives(u, s, r, children);
    forall i: nat, j: nat | p(i) && ReadsTo(u, s, i, j)
      ensures p(j)
    {
      assert SpaceFrom(s, i, |s|) == i;
      ChildReads(u, s, i);
    }
    forall i: nat | p(i) && Blank(s, |s|, i)
      ensures p(i + 1)
    {
      assert SpaceFrom(s, i, |s|) == SpaceFrom(s, i + 1, |s|);
    }
  }

  /** What stands before the rest of a group. */
  lemma {:induction false} TailSettled(unquote: G.Unquote, s: string, i: nat, rest: seq<Pattern>, ps: seq<Predicate>, n: nat)
    requires TailBehind(s, i, rest, ps) == Some(n) && AreBranches(unquote, rest)
    ensures Settled(s, i, |s|) && n < |s| && s[n] == ')'
    ensures rest == [] ==> PredicatesBehind(s, i, ps) == Some(n)
    ensures Next(s, i, |s|) == i || (Next(s, i, |s|) == i + 1 < |s| && s[i] == ' ' && s[i + 1] in ['(', '[', '\"'])
    ensures rest != [] ==> Next(s, i, |s|) == i + 1
  {
    if rest == [] {
      BlankBefore(s, i, ps, n);
    } else {
      FirstByte(unquote, s, i + 1, rest[0].atom);
    }
  }

  lemma {:induction false} TailRead(p: nat -> bool, unquote: G.Unquote, s: string, i: nat, rest: seq<Pattern>, ps: seq<Predicate>, n: nat)
    requires TailBehind(s, i, rest, ps) == Some(n) && AreBranches(unquote, rest) && ArePredicates(unquote, ps)
    requires Kept(p, Accepts(unquote), s) && Settled(s, i, |s|) && p(Next(s, i, |s|))
    ensures p(n)
    decreases rest
  {
    TailSettled(unquote, s, i, rest, ps, n);
    if rest == [] {
      PredicatesRead(p, unquote, s, i, ps, n);
    } else {
      var k := i + 1 + Len(rest[0]);
      TailSettled(unquote, s, k, rest[1..], ps, n);
      PatternRead(unquote, s, i + 1, rest[0]);
      TailRead(p, unquote, s, k, rest[1..], ps, n);
    }
  }

  lemma {:induction false} GroupReads(u: string -> bool, s: string, i: nat, j: nat)
    requires i + 1 < |s| && s[i + 1] in ['(', '['] && V.Pattern(u, s, i + 1) == V.Good(j)
    ensures V.Paren(u, s, i) == V.Group(u, s, j, true)
  {
    assert SpaceFrom(s, i + 1, |s|) == i + 1;
    assert V.Group(u, s, i + 1, false) == V.Group(u, s, j, true);
  }

  lemma {:induction false} LiteralReads(u: string -> bool, s: string, i: nat, k: nat)
    requires i + 1 < |s| && s[i + 1] == '\"' && V.Quoted(u, s, i + 1) == V.Good(k)
    requires var j := SpaceFrom(s, k, |s|); j == |s| || s[j] != '/'
    ensures V.Paren(u, s, i) == V.Children(u, s, k)
  {
    assert SpaceFrom(s, i + 1, |s|) == i + 1;
    assert V.Head(u, s, i + 1) == V.Good(k);
    assert V.Node(u, s, i + 1) == V.Children(u, s, k);
  }

  /** The first pattern of a group is read, and then its other elements. */
  lemma {:induction false} FirstRead(unquote: G.Unquote, s: string, i: nat, first: Pattern, k: nat)
    requires i + 1 < |s| && Shows(s, i + 1, first) && IsPattern(unquote, first)
    requires first.atom.Literal? ==> first.quantifier.None? && first.captures == []
    requires k == i + 1 + Len(first) && Settled(s, k, |s|) && (Next(s, k, |s|) == |s| || s[Next(s, k, |s|)] != '/')
    ensures V.Paren(Accepts(unquote), s, i)
         == if first.atom.Literal? then V.Children(Accepts(unquote), s, Next(s, k, |s|))
            else V.Group(Accepts(unquote), s, Next(s, k, |s|), true)
    decreases first, 2
  {
    FirstByte(unquote, s, i + 1, first.atom);
    if first.atom.Literal? {
      BareLiteral(unquote, s, i + 1, first);
      SettledSpace(s, k, |s|);
      LiteralReads(Accepts(unquote), s, i, k);
      ChildrenSkip(unquote, s, k);
    } else {
      PatternRead(unquote, s, i + 1, first);
      GroupReads(Accepts(unquote), s, i, Next(s, k, |s|));
    }
  }

  lemma {:induction false} BareLiteral(unquote: G.Unquote, s: string, i: nat, p: Pattern)
    requires p.atom.Literal? && Shows(s, i, p) && IsPattern(unquote, p) && p.quantifier.None? && p.captures == []
    ensures Len(p) == |p.atom.text| && V.Quoted(Accepts(unquote), s, i) == V.Good(i + Len(p))
  {
    LiteralAt(unquote, s, i, p.atom.text);
  }

  lemma {:induction false} GroupAccepted(unquote: G.Unquote, s: string, i: nat, a: Atom)
    requires a.Group? && ShowsAtom(s, i, a) && IsGroup(unquote, a)
    ensures i < |s| && V.Paren(Accepts(unquote), s, i) == V.Good(i + LenAtom(a))
    decreases a, 0
  {
    var k, n := i + 1 + Len(a.first), i + LenAtom(a) - 1;
    TailSettled(unquote, s, k, a.rest, a.predicates, n);
    FirstRead(unquote, s, i, a.first, k);
    var u, r := Accepts(unquote), V.Paren(Accepts(unquote), s, i);
    GroupGivesKept(u, s, r, a.first.atom.Literal?);
    TailRead(GroupGives(u, s, r, a.first.atom.Literal?), unquote, s, k, a.rest, a.predicates, n);
    assert SpaceFrom(s, n, |s|) == n;
  }

  // ---------------------------------------------------------------- whole queries

  predicate AreTops(unquote: G.Unquote, ts: seq<Top>) { forall k :: 0 <= k < |ts| ==> IsTop(unquote, ts[k]) }

  /** The end of a pattern's line. */
  lemma {:induction false} LineEnd(unquote: G.Unquote, s: string, i: nat, ts: seq<Top>, k: nat)
    requires k < |ts| && Behind(s, i, ts, k) == Some(|s|) && AreTops(unquote, ts)
    ensures EndsLine(s, i + LenTop(ts[k]))
  {
    var n := i + LenTop(ts[k]);
    assert LenFrom(ts, k) == LenTop(ts[k]) + 1 + LenFrom(ts, k + 1);
    if k + 1 < |ts| {
      assert ShowsFrom(s, n + 1, ts, k + 1);
      assert ShowsTop(s, n + 1, ts[k + 1]);
      FirstByte(unquote, s, n + 1, ts[k + 1].pattern.atom);
    }
  }

  lemma {:induction false} TopRead(p: nat -> bool, unquote: G.Unquote, s: string, i: nat, t: Top)
    requires ShowsTop(s, i, t) && IsTop(unquote, t) && EndsLine(s, i + LenTop(t))
    requires Kept(p, Accepts(unquote), s) && p(i)
    ensures p(i + LenTop(t) + 1)
  {
    hide Kept, ReadsTo, IsPattern, Shows, Len, ShowsPredicates;
    var k := i + Len(t.pattern);
    BlankBefore(s, k, t.predicates, i + LenTop(t));
    PatternRead(unquote, s, i, t.pattern);
    ReadOn(p, Accepts(unquote), s, i, Next(s, k, |s|));
    PredicatesRead(p, unquote, s, k, t.predicates, i + LenTop(t));
  }

  lemma {:induction false} LinesRead(p: nat -> bool, unquote: G.Unquote, s: string, i: nat, ts: seq<Top>, k: nat)
    requires k <= |ts| && Behind(s, i, ts, k) == Some(|s|) && AreTops(unquote, ts)
    requires Kept(p, Accepts(unquote), s) && p(i)
    ensures p(|s|)
    decreases |ts| - k
  {
    if k < |ts| {
      LineEnd(unquote, s, i, ts, k);
      TopRead(p, unquote, s, i, ts[k]);
      LinesRead(p, unquote, s, i + LenTop(ts[k]) + 1, ts, k + 1);
    }
  }

  /** Reading on from `i` gives `r`. */
  ghost function Gives(u: string -> bool, s: string, r: V.Parsed): nat -> bool {
    (i: nat) => i <= |s| && V.Query(u, s, i) == r
  }

  lemma {:induction false} GivesKept(u: string -> bool, s: string, r: V.Parsed)
    ensures Kept(Gives(u, s, r), u, s)
  {
    forall i: nat, j: nat | Gives(u, s, r)(i) && ReadsTo(u, s, i, j)
      ensures Gives(u, s, r)(j)
    {
      assert SpaceFrom(s, i, |s|) == i;
    }
    forall i: nat | Gives(u, s, r)(i) && Blank(s, |s|, i)
      ensures Gives(u, s, r)(i + 1)
    {
      assert SpaceFrom(s, i, |s|) == SpaceFrom(s, i + 1, |s|);
    }
  }

  /** The validator accepts every printed query. */
  lemma {:induction false} QueryAccepted(unquote: G.Unquote, s: string, ts: seq<Top>)
    requires Behind(s, 0, ts, 0) == Some(|s|) && AreTops(unquote, ts)
    ensures V.Query(Accepts(unquote), s, 0) == V.Good(|s|)
  {
    var u := Accepts(unquote);
    var r := V.Query(u, s, 0);
    GivesKept(u, s, r);
    LinesRead(Gives(u, s, r), unquote, s, 0, ts, 0);
  }
}
