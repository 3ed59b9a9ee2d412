/** Printing a query and reading it back: every query built from node patterns with
fields, literals, alternations, groups, captures, single quantifiers and predicates is
accepted by the validator and cut by the grouping parser into its top-level patterns. */
module QueryPrinter {
  import opened Values
  import opened QueryText
  import G = QueryGroups

  datatype Atom =
    | Node(name: string, children: seq<Child>)
    | Literal(text: string)
    | Choice(branches: seq<Pattern>)
    | Group(first: Pattern, rest: seq<Pattern>, predicates: seq<Predicate>)

  datatype Pattern = Pattern(atom: Atom, quantifier: Option<char>, captures: seq<string>)

  datatype Child = Child(field: Option<string>, pattern: Pattern)

  datatype Argument = Capture(name: string) | Text(text: string) | Symbol(name: string)

  datatype Predicate = Predicate(operator: string, arguments: seq<Argument>)

  datatype Top = Top(pattern: Pattern, predicates: seq<Predicate>)

  // ---------------------------------------------------------------- printing

  function PrintQuantifier(q: Option<char>): string { if q.Some? then [q.value] else "" }

  function PrintCaptures(cs: seq<string>): string {
    if cs == [] then "" else [' '] + (['@'] + cs[0]) + PrintCaptures(cs[1..])
  }

  function PrintSuffix(p: Pattern): string { PrintQuantifier(p.quantifier) + PrintCaptures(p.captures) }

  function Print(p: Pattern): string { PrintAtom(p.atom) + PrintSuffix(p) }

  function PrintAtom(a: Atom): string {
    match a
    case Node(name, children) => ['('] + (name + PrintChildren(children)) + [')']
    case Literal(text) => text
    case Choice(branches) => ['['] + PrintBranches(branches) + [']']
    case Group(first, rest, predicates) => ['('] + (Print(first) + PrintTail(rest, predicates)) + [')']
  }

  /** What a group holds behind its first pattern. */
  function PrintTail(rest: seq<Pattern>, predicates: seq<Predicate>): string {
    if rest == [] then PrintPredicates(predicates) else [' '] + Print(rest[0]) + PrintTail(rest[1..], predicates)
  }

  function PrintChild(c: Child): string {
    match c.field
    case None => Print(c.pattern)
    case Some(name) => name + [':'] + ([' '] + Print(c.pattern))
  }

  function PrintChildren(cs: seq<Child>): string {
    if cs == [] then "" else [' '] + PrintChild(cs[0]) + PrintChildren(cs[1..])
  }

  function PrintBranches(bs: seq<Pattern>): string {
    if bs == [] then "" else Print(bs[0]) + [' '] + PrintBranches(bs[1..])
  }

  function PrintArgument(a: Argument): string {
    match a
    case Capture(name) => ['@'] + name
    case Text(text) => text
    case Symbol(name) => name
  }

  function PrintArguments(args: seq<Argument>): string {
    if args == [] then "" else [' '] + PrintArgument(args[0]) + PrintArguments(args[1..])
  }

  function PrintPredicate(p: Predicate): string { ['('] + (['#'] + p.operator + PrintArguments(p.arguments)) + [')'] }

  function PrintPredicates(ps: seq<Predicate>): string {
    if ps == [] then "" else [' '] + PrintPredicate(ps[0]) + PrintPredicates(ps[1..])
  }

  function PrintTop(t: Top): string { Print(t.pattern) + PrintPredicates(t.predicates) }

  /** The query from its `k`th pattern on, each pattern on its own line. */
  function PrintFrom(ts: seq<Top>, k: nat): string
    requires k <= |ts|
    decreases |ts| - k
  {
    if k == |ts| then "" else PrintTop(ts[k]) + ['\n'] + PrintFrom(ts, k + 1)
  }

  function PrintQuery(ts: seq<Top>): string { PrintFrom(ts, 0) }

  // ---------------------------------------------------------------- what can be printed

  predicate IsIdent(n: string) {
    n != "" && IsIdentStart(n[0]) && forall k :: 0 <= k < |n| ==> IsIdentContinue(n[k])
  }

  /** Names of nodes and fields: an underscore in front is the wildcard. */
  predicate IsName(n: string) { IsIdent(n) && n[0] != '_' }

  /** Text that, read from `i`, closes with its last byte and not before. */
  predicate Closes(t: string, i: nat, escaped: bool)
    decreases |t| - i
  {
    i < |t| && if t[i] == '\"' && !escaped then i + 1 == |t| else Closes(t, i + 1, t[i] == '\\' && !escaped)
  }

  /** A literal `strconv.Unquote` accepts, with the termination that implies. */
  predicate IsLiteral(unquote: G.Unquote, t: string) {
    |t| >= 2 && t[0] == '\"' && t[|t| - 1] == '\"' && Closes(t, 1, false) && unquote(t).Some?
  }

  predicate AreIdents(names: seq<string>) { forall k :: 0 <= k < |names| ==> IsIdent(names[k]) }

  predicate IsSuffix(p: Pattern) {
    (p.quantifier.Some? ==> IsQuantifier(p.quantifier.value)) && AreIdents(p.captures)
  }

  predicate IsPattern(unquote: G.Unquote, p: Pattern)
    decreases p
  {
    IsAtom(unquote, p.atom) && IsSuffix(p)
  }

  predicate IsAtom(unquote: G.Unquote, a: Atom)
    decreases a, 1
  {
    match a
    case Node(name, children) =>
      && IsName(name) && name != "MISSING"
      && forall k :: 0 <= k < |children| ==>
           IsPattern(unquote, children[k].pattern) && (children[k].field.Some? ==> IsName(children[k].field.value))
    case Literal(text) => IsLiteral(unquote, text)
    case Choice(branches) => branches != [] && forall k :: 0 <= k < |branches| ==> IsPattern(unquote, branches[k])
    case Group(first, _, _) => IsGroup(unquote, a) && GivesType(unquote, first.atom)
  }

  /** A group the validator accepts: a literal that stands first has no suffix. */
  predicate IsGroup(unquote: G.Unquote, a: Atom)
    requires a.Group?
    decreases a, 0
  {
    && IsPattern(unquote, a.first) && (a.first.atom.Literal? ==> a.first.quantifier.None? && a.first.captures == [])
    && (forall k :: 0 <= k < |a.rest| ==> IsPattern(unquote, a.rest[k]))
    && forall k :: 0 <= k < |a.predicates| ==> IsPredicate(unquote, a.predicates[k])
  }

  /** What a group must begin with to be a pattern: no alternation and no empty literal. */
  predicate GivesType(unquote: G.Unquote, a: Atom) { !a.Choice? && (a.Literal? ==> unquote(a.text) != Some("")) }

  predicate IsArgument(unquote: G.Unquote, a: Argument) {
    match a
    case Capture(name) => IsIdent(name)
    case Text(text) => IsLiteral(unquote, text)
    case Symbol(name) => IsIdent(name)
  }

  predicate IsPredicate(unquote: G.Unquote, p: Predicate) {
    IsIdent(p.operator) && forall k :: 0 <= k < |p.arguments| ==> IsArgument(unquote, p.arguments[k])
  }

  predicate IsTop(unquote: G.Unquote, t: Top) {
    IsPattern(unquote, t.pattern) && forall k :: 0 <= k < |t.predicates| ==> IsPredicate(unquote, t.predicates[k])
  }

  // ---------------------------------------------------------------- text at a position

  predicate Reads(s: string, i: nat, t: string, k: nat)
    requires k < |t| && i + |t| <= |s|
  {
    s[i + k] == t[k]
  }

  /** `s` reads `t` at `i`. */
  predicate At(s: string, i: nat, t: string) {
    i + |t| <= |s| && forall k: nat :: k < |t| ==> Reads(s, i, t, k)
  }

  lemma {:induction false} CharAt(s: string, i: nat, t: string, k: nat)
    requires At(s, i, t) && k < |t|
    ensures i + k < |s| && s[i + k] == t[k]
  {
    assert Reads(s, i, t, k);
  }

  lemma {:induction false} Split(s: string, i: nat, a: string, b: string)
    requires At(s, i, a + b)
    ensures At(s, i, a) && At(s, i + |a|, b)
  {
    forall k: nat | k < |a|
      ensures Reads(s, i, a, k)
    {
      assert Reads(s, i, a + b, k);
    }
    var j := i + |a|;
    forall k: nat | k < |b|
      ensures Reads(s, j, b, k)
    {
      assert Reads(s, i, a + b, |a| + k);
    }
  }

  /** A text, one byte, a text. */
  lemma {:induction false} Joined(s: string, i: nat, a: string, c: char, b: string)
    requires At(s, i, a + [c] + b)
    ensures At(s, i, a) && i + |a| < |s| && s[i + |a|] == c && At(s, i + |a| + 1, b)
  {
    Split(s, i, a + [c], b);
    Split(s, i, a, [c]);
    CharAt(s, i + |a|, [c], 0);
  }

  /** One byte, a text, and a text. */
  lemma {:induction false} Led(s: string, i: nat, c: char, a: string, b: string)
    requires At(s, i, [c] + a + b)
    ensures i < |s| && s[i] == c && At(s, i + 1, a) && At(s, i + 1 + |a|, b)
  {
    Split(s, i, [c] + a, b);
    Split(s, i, [c], a);
    CharAt(s, i, [c], 0);
  }

  function LenCaptures(cs: seq<string>): nat { if cs == [] then 0 else 2 + |cs[0]| + LenCaptures(cs[1..]) }

  function LenSuffix(p: Pattern): nat { (if p.quantifier.Some? then 1 else 0) + LenCaptures(p.captures) }

  function Len(p: Pattern): nat { LenAtom(p.atom) + LenSuffix(p) }

  function LenAtom(a: Atom): nat {
    match a
    case Node(name, children) => 2 + |name| + LenChildren(children)
    case Literal(text) => |text|
    case Choice(branches) => 2 + LenBranches(branches)
    case Group(first, rest, predicates) => 2 + Len(first) + LenTail(rest, predicates)
  }

  function LenTail(rest: seq<Pattern>, predicates: seq<Predicate>): nat {
    if rest == [] then LenPredicates(predicates) else 1 + Len(rest[0]) + LenTail(rest[1..], predicates)
  }

  function LenField(c: Child): nat { if c.field.Some? then |c.field.value| + 2 else 0 }

  function LenChild(c: Child): nat { LenField(c) + Len(c.pattern) }

  function LenChildren(cs: seq<Child>): nat { if cs == [] then 0 else 1 + LenChild(cs[0]) + LenChildren(cs[1..]) }

  function LenBranches(bs: seq<Pattern>): nat { if bs == [] then 0 else Len(bs[0]) + 1 + LenBranches(bs[1..]) }

  function LenArgument(a: Argument): nat {
    match a
    case Capture(name) => 1 + |name|
    case Text(text) => |text|
    case Symbol(name) => |name|
  }

  function LenArguments(args: seq<Argument>): nat {
    if args == [] then 0 else 1 + LenArgument(args[0]) + LenArguments(args[1..])
  }

  function LenPredicate(p: Predicate): nat { 3 + |p.operator| + LenArguments(p.arguments) }

  function LenPredicates(ps: seq<Predicate>): nat {
    if ps == [] then 0 else 1 + LenPredicate(ps[0]) + LenPredicates(ps[1..])
  }

  function LenTop(t: Top): nat { Len(t.pattern) + LenPredicates(t.predicates) }

  function LenFrom(ts: seq<Top>, k: nat): nat
    requires k <= |ts|
    decreases |ts| - k
  {
    if k == |ts| then 0 else LenTop(ts[k]) + 1 + LenFrom(ts, k + 1)
  }

  /** `s` reads the printed form of a pattern, and of each part of a query, at `i`. */
  predicate ShowsCaptures(s: string, i: nat, cs: seq<string>)
    decreases cs
  {
    && i + LenCaptures(cs) <= |s|
    && (cs != [] ==> s[i] == ' ' && s[i + 1] == '@' && At(s, i + 2, cs[0]) && ShowsCaptures(s, i + 2 + |cs[0]|, cs[1..]))
  }

  predicate ShowsSuffix(s: string, i: nat, p: Pattern) {
    && i + LenSuffix(p) <= |s|
    && (p.quantifier.Some? ==> s[i] == p.quantifier.value)
    && ShowsCaptures(s, if p.quantifier.Some? then i + 1 else i, p.captures)
  }

  predicate Shows(s: string, i: nat, p: Pattern)
    decreases p
  {
    ShowsAtom(s, i, p.atom) && ShowsSuffix(s, i + LenAtom(p.atom), p)
  }

  predicate ShowsAtom(s: string, i: nat, a: Atom)
    decreases a
  {
    && i + LenAtom(a) <= |s|
    && match a
       case Node(name, children) =>
         s[i] == '(' && At(s, i + 1, name) && ShowsChildren(s, i + 1 + |name|, children) && s[i + LenAtom(a) - 1] == ')'
       case Literal(text) => At(s, i, text)
       case Choice(branches) => s[i] == '[' && ShowsBranches(s, i + 1, branches) && s[i + LenAtom(a) - 1] == ']'
       case Group(first, rest, predicates) =>
         s[i] == '(' && Shows(s, i + 1, first) && TailBehind(s, i + 1 + Len(first), rest, predicates) == Some(i + LenAtom(a) - 1)
  }

  /** Where the group is closed that goes on at `i` with these patterns and predicates. */
  function TailBehind(s: string, i: nat, rest: seq<Pattern>, predicates: seq<Predicate>): (r: Option<nat>)
    ensures r.Some? ==> r.value == i + LenTail(rest, predicates) < |s| && s[r.value] == ')'
    decreases rest
  {
    var n := i + LenTail(rest, predicates);
    if n >= |s| || s[n] != ')' then None
    else if rest == [] then if ShowsPredicates(s, i, predicates) then Some(n) else None
    else if s[i] == ' ' && Shows(s, i + 1, rest[0]) then TailBehind(s, i + 1 + Len(rest[0]), rest[1..], predicates)
    else None
  }

  predicate ShowsChild(s: string, i: nat, c: Child)
    decreases c
  {
    && i + LenChild(c) <= |s|
    && (c.field.Some? ==>
          At(s, i, c.field.value) && s[i + |c.field.value|] == ':' && s[i + |c.field.value| + 1] == ' ')
    && Shows(s, i + LenField(c), c.pattern)
  }

  predicate ShowsChildren(s: string, i: nat, cs: seq<Child>)
    decreases cs
  {
    && i + LenChildren(cs) <= |s|
    && (cs != [] ==> s[i] == ' ' && ShowsChild(s, i + 1, cs[0]) && ShowsChildren(s, i + 1 + LenChild(cs[0]), cs[1..]))
  }

  predicate ShowsBranches(s: string, i: nat, bs: seq<Pattern>)
    decreases bs
  {
    && i + LenBranches(bs) <= |s|
    && (bs != [] ==> Shows(s, i, bs[0]) && s[i + Len(bs[0])] == ' ' && ShowsBranches(s, i + Len(bs[0]) + 1, bs[1..]))
  }

  predicate ShowsArgument(s: string, i: nat, a: Argument) {
    match a
    case Capture(name) => i < |s| && s[i] == '@' && At(s, i + 1, name)
    case Text(text) => At(s, i, text)
    case Symbol(name) => At(s, i, name)
  }

  predicate ShowsArguments(s: string, i: nat, args: seq<Argument>)
    decreases args
  {
    && i + LenArguments(args) <= |s|
    && (args != [] ==>
          s[i] == ' ' && ShowsArgument(s, i + 1, args[0]) && ShowsArguments(s, i + 1 + LenArgument(args[0]), args[1..]))
  }

  predicate ShowsPredicate(s: string, i: nat, p: Predicate) {
    && i + LenPredicate(p) <= |s|
    && s[i] == '(' && s[i + 1] == '#' && At(s, i + 2, p.operator)
    && ShowsArguments(s, i + 2 + |p.operator|, p.arguments) && s[i + LenPredicate(p) - 1] == ')'
  }

  predicate ShowsPredicates(s: string, i: nat, ps: seq<Predicate>)
    decreases ps
  {
    && i + LenPredicates(ps) <= |s|
    && (ps != [] ==>
          s[i] == ' ' && ShowsPredicate(s, i + 1, ps[0]) && ShowsPredicates(s, i + 1 + LenPredicate(ps[0]), ps[1..]))
  }

  predicate ShowsTop(s: string, i: nat, t: Top) {
    Shows(s, i, t.pattern) && ShowsPredicates(s, i + Len(t.pattern), t.predicates)
  }

  predicate ShowsFrom(s: string, i: nat, ts: seq<Top>, k: nat)
    requires k <= |ts|
    decreases |ts| - k
  {
    && i + LenFrom(ts, k) <= |s|
    && (k < |ts| ==>
          ShowsTop(s, i, ts[k]) && s[i + LenTop(ts[k])] == '\n' && ShowsFrom(s, i + LenTop(ts[k]) + 1, ts, k + 1))
  }

  /** Where the printed line that `s` reads at `i` ends. */
  function LineEndOf(s: string, i: nat, t: Top): Option<nat> { if ShowsTop(s, i, t) then Some(i + LenTop(t)) else None }

  /** Where the printed query ends that `s` reads at `i`, from its `k`th pattern on. */
  function Behind(s: string, i: nat, ts: seq<Top>, k: nat): Option<nat>
    requires k <= |ts|
  {
    if ShowsFrom(s, i, ts, k) then Some(i + LenFrom(ts, k)) else None
  }

  // ---------------------------------------------------------------- the printed form

  lemma {:induction false} CapturesPrinted(s: string, i: nat, cs: seq<string>)
    requires At(s, i, PrintCaptures(cs))
    ensures ShowsCaptures(s, i, cs) && |PrintCaptures(cs)| == LenCaptures(cs)
    decreases cs
  {
    if cs != [] {
      Led(s, i, ' ', ['@'] + cs[0], PrintCaptures(cs[1..]));
      Split(s, i + 1, ['@'], cs[0]);
      CharAt(s, i + 1, ['@'], 0);
      CapturesPrinted(s, i + 2 + |cs[0]|, cs[1..]);
    }
  }

  lemma {:induction false} SuffixPrinted(s: string, i: nat, p: Pattern)
    requires At(s, i, PrintSuffix(p))
    ensures ShowsSuffix(s, i, p) && |PrintSuffix(p)| == LenSuffix(p)
  {
    var q := PrintQuantifier(p.quantifier);
    Split(s, i, q, PrintCaptures(p.captures));
    if p.quantifier.Some? {
      CharAt(s, i, q, 0);
    }
    CapturesPrinted(s, i + |q|, p.captures);
  }

  lemma {:induction false} Printed(s: string, i: nat, p: Pattern)
    requires At(s, i, Print(p))
    ensures Shows(s, i, p) && |Print(p)| == Len(p)
    decreases p
  {
    Split(s, i, PrintAtom(p.atom), PrintSuffix(p));
    AtomPrinted(s, i, p.atom);
    SuffixPrinted(s, i + LenAtom(p.atom), p);
  }

  lemma {:induction false} AtomPrinted(s: string, i: nat, a: Atom)
    requires At(s, i, PrintAtom(a))
    ensures ShowsAtom(s, i, a) && |PrintAtom(a)| == LenAtom(a)
    decreases a
  {
    match a {
      case Node(name, children) =>
        Led(s, i, '(', name + PrintChildren(children), [')']);
        Split(s, i + 1, name, PrintChildren(children));
        CharAt(s, i + 1 + |name| + |PrintChildren(children)|, [')'], 0);
        ChildrenPrinted(s, i + 1 + |name|, children);
      case Literal(text) =>
      case Choice(branches) =>
        Led(s, i, '[', PrintBranches(branches), [']']);
        CharAt(s, i + 1 + |PrintBranches(branches)|, [']'], 0);
        BranchesPrinted(s, i + 1, branches);
      case Group(_, _, _) => GroupPrinted(s, i, a);
    }
  }

  lemma {:induction false} GroupPrinted(s: string, i: nat, a: Atom)
    requires a.Group? && At(s, i, PrintAtom(a))
    ensures ShowsAtom(s, i, a) && |PrintAtom(a)| == LenAtom(a)
    decreases a, 0
  {
    hide Print, PrintTail, Len, LenTail, Shows, TailBehind;
    var first, tail := Print(a.first), PrintTail(a.rest, a.predicates);
    Led(s, i, '(', first + tail, [')']);
    Split(s, i + 1, first, tail);
    Printed(s, i + 1, a.first);
    CharAt(s, i + 1 + |first| + |tail|, [')'], 0);
    TailPrinted(s, i + 1 + |first|, a.rest, a.predicates);
  }

  lemma {:induction false} TailPrinted(s: string, i: nat, rest: seq<Pattern>, predicates: seq<Predicate>)
    requires At(s, i, PrintTail(rest, predicates))
    requires var n := i + |PrintTail(rest, predicates)|; n < |s| && s[n] == ')'
    ensures |PrintTail(rest, predicates)| == LenTail(rest, predicates)
    ensures TailBehind(s, i, rest, predicates) == Some(i + LenTail(rest, predicates))
    decreases rest
  {
    hide Print, PrintPredicates, Len, LenPredicates, Shows, ShowsPredicates;
    if rest == [] {
      PredicatesPrinted(s, i, predicates);
    } else {
      Led(s, i, ' ', Print(rest[0]), PrintTail(rest[1..], predicates));
      Printed(s, i + 1, rest[0]);
      TailPrinted(s, i + 1 + Len(rest[0]), rest[1..], predicates);
    }
  }

  lemma {:induction false} ChildPrinted(s: string, i: nat, c: Child)
    requires At(s, i, PrintChild(c))
    ensures ShowsChild(s, i, c) && |PrintChild(c)| == LenChild(c)
    decreases c
  {
    if c.field.Some? {
      var name := c.field.value;
      Joined(s, i, name, ':', [' '] + Print(c.pattern));
      Split(s, i + |name| + 1, [' '], Print(c.pattern));
      CharAt(s, i + |name| + 1, [' '], 0);
    }
    Printed(s, i + LenField(c), c.pattern);
  }

  lemma {:induction false} ChildrenPrinted(s: string, i: nat, cs: seq<Child>)
    requires At(s, i, PrintChildren(cs))
    ensures ShowsChildren(s, i, cs) && |PrintChildren(cs)| == LenChildren(cs)
    decreases cs
  {
    if cs != [] {
      Led(s, i, ' ', PrintChild(cs[0]), PrintChildren(cs[1..]));
      ChildPrinted(s, i + 1, cs[0]);
      ChildrenPrinted(s, i + 1 + LenChild(cs[0]), cs[1..]);
    }
  }

  lemma {:induction false} BranchesPrinted(s: string, i: nat, bs: seq<Pattern>)
    requires At(s, i, PrintBranches(bs))
    ensures ShowsBranches(s, i, bs) && |PrintBranches(bs)| == LenBranches(bs)
    decreases bs
  {
    if bs != [] {
      Joined(s, i, Print(bs[0]), ' ', PrintBranches(bs[1..]));
      Printed(s, i, bs[0]);
      BranchesPrinted(s, i + Len(bs[0]) + 1, bs[1..]);
    }
  }

  lemma {:induction false} ArgumentPrinted(s: string, i: nat, a: Argument)
    requires At(s, i, PrintArgument(a))
    ensures ShowsArgument(s, i, a) && |PrintArgument(a)| == LenArgument(a)
  {
    if a.Capture? {
      Split(s, i, ['@'], a.name);
      CharAt(s, i, ['@'], 0);
    }
  }

  lemma {:induction false} ArgumentsPrinted(s: string, i: nat, args: seq<Argument>)
    requires At(s, i, PrintArguments(args))
    ensures ShowsArguments(s, i, args) && |PrintArguments(args)| == LenArguments(args)
    decreases args
  {
    if args != [] {
      Led(s, i, ' ', PrintArgument(args[0]), PrintArguments(args[1..]));
      ArgumentPrinted(s, i + 1, args[0]);
      ArgumentsPrinted(s, i + 1 + LenArgument(args[0]), args[1..]);
    }
  }

  lemma {:induction false} PredicatePrinted(s: string, i: nat, p: Predicate)
    requires At(s, i, PrintPredicate(p))
    ensures ShowsPredicate(s, i, p) && |PrintPredicate(p)| == LenPredicate(p)
  {
    var inner := ['#'] + p.operator + PrintArguments(p.arguments);
    Led(s, i, '(', inner, [')']);
    CharAt(s, i + 1 + |inner|, [')'], 0);
    Led(s, i + 1, '#', p.operator, PrintArguments(p.arguments));
    ArgumentsPrinted(s, i + 2 + |p.operator|, p.arguments);
  }

  lemma {:induction false} PredicatesPrinted(s: string, i: nat, ps: seq<Predicate>)
    requires At(s, i, PrintPredicates(ps))
    ensures ShowsPredicates(s, i, ps) && |PrintPredicates(ps)| == LenPredicates(ps)
    decreases ps
  {
    if ps != [] {
      Led(s, i, ' ', PrintPredicate(ps[0]), PrintPredicates(ps[1..]));
      PredicatePrinted(s, i + 1, ps[0]);
      PredicatesPrinted(s, i + 1 + LenPredicate(ps[0]), ps[1..]);
    }
  }

  lemma {:induction false} TopPrinted(s: string, i: nat, t: Top)
    requires At(s, i, PrintTop(t))
    ensures ShowsTop(s, i, t) && |PrintTop(t)| == LenTop(t)
  {
    Split(s, i, Print(t.pattern), PrintPredicates(t.predicates));
    Printed(s, i, t.pattern);
    PredicatesPrinted(s, i + Len(t.pattern), t.predicates);
  }

  lemma {:induction false} FirstPrinted(s: string, i: nat, t: Top, rest: string) returns (n: nat)
    requires At(s, i, PrintTop(t) + ['\n'] + rest)
    ensures LineEndOf(s, i, t) == Some(n) && n == i + |PrintTop(t)| && n < |s| && s[n] == '\n' && At(s, n + 1, rest)
  {
    n := i + |PrintTop(t)|;
    Joined(s, i, PrintTop(t), '\n', rest);
    TopPrinted(s, i, t);
  }

  lemma {:induction false} NothingShown(s: string, i: nat, ts: seq<Top>)
    requires i <= |s|
    ensures Behind(s, i, ts, |ts|) == Some(i)
  {
  }

  /** A line, and the rest of the query behind it. */
  lemma {:induction false} LineShown(s: string, i: nat, ts: seq<Top>, k: nat, n: nat, end: nat)
    requires k < |ts| && LineEndOf(s, i, ts[k]) == Some(n) && n < |s| && s[n] == '\n' && Behind(s, n + 1, ts, k + 1) == Some(end)
    ensures Behind(s, i, ts, k) == Some(end)
  {
  }

  lemma {:induction false} QueryPrinted(s: string, i: nat, ts: seq<Top>, k: nat, end: nat)
    requires k <= |ts| && At(s, i, PrintFrom(ts, k)) && end == i + |PrintFrom(ts, k)|
    ensures Behind(s, i, ts, k) == Some(end)
    decreases |ts| - k
  {
    if k == |ts| {
      NothingShown(s, i, ts);
    } else {
      var n := FirstPrinted(s, i, ts[k], PrintFrom(ts, k + 1));
      QueryPrinted(s, n + 1, ts, k + 1, end);
      LineShown(s, i, ts, k, n, end);
    }
  }
}
