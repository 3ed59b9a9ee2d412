/** The grouping parser of the fallback query front end: it cuts a query into top-level
patterns, numbers them, and gives every branch of an alternation its pattern's number.

`unquote` stands for `strconv.Unquote`; of a pattern only its number and span are kept. */
module QueryGroups {
  import opened Values
  import opened QueryText

  datatype FallbackPattern = FallbackPattern(index: nat, start: nat, end: nat)

  type Unquote = string -> Option<string>

  function Decoded(unquote: Unquote, v: string): Option<string> {
    if |v| < 2 || v[0] != '\"' || v[|v| - 1] != '\"' then None else unquote(v)
  }

  predicate IsNodeToken(c: char) { IsIdentStart(c) || c == '.' || c == '*' }

  /** Whether a node type is found in the expression between `open` and `close`. */
  function HasNodeType(unquote: Unquote, s: string, open: nat, close: nat): bool
    requires open < close <= |s|
    decreases close - open
  {
    var i := SpaceFrom(s, open + 1, close);
    if i >= close then false
    else if s[i] == '(' then
      var nested := Balanced(s, i, close, Plain, 0, '(', ')');
      nested.1 && HasNodeType(unquote, s, i, nested.0)
    else if s[i] == '\"' then
      var next := QuotedFrom(s, i + 1, false);
      next <= close && Decoded(unquote, s[i..next]).Some? && Decoded(unquote, s[i..next]).value != ""
    else IsNodeToken(s[i])
  }

  predicate IsPredicate(s: string, open: nat, close: nat)
    requires open < close <= |s|
  {
    var i := SpaceFrom(s, open + 1, close);
    i < close && (s[i] == '#' || s[i] == '.') && i + 1 < |s| && IsIdentStart(s[i + 1])
  }

  /** Blanks and one quantifier. */
  function QuantifierFrom(s: string, i: nat, end: nat): (r: nat)
    requires i <= end <= |s|
    ensures i <= r <= end
  {
    var j := SpaceFrom(s, i, end);
    if j < end && IsQuantifier(s[j]) then SpaceFrom(s, j + 1, end) else j
  }

  predicate IsCapture(s: string, at: nat, end: nat)
    requires at < end <= |s|
  {
    s[at] == '@' && at + 1 < end && IsIdentStart(s[at + 1])
  }

  /** Captures, each with its blanks and one quantifier. */
  function CapturesFrom(s: string, i: nat, end: nat): (r: nat)
    requires i <= end <= |s|
    ensures i <= r <= end
    decreases end - i
  {
    if i < end && IsCapture(s, i, end) then
      CapturesFrom(s, QuantifierFrom(s, IdentFrom(s, i + 1, end), end), end)
    else i
  }

  /** Where the suffix of a pattern that ends at `i` ends. */
  function SuffixFrom(s: string, i: nat, end: nat): (r: nat)
    requires i <= end <= |s|
    ensures i <= r <= end
  {
    CapturesFrom(s, QuantifierFrom(s, i, end), end)
  }

  /** The number of the next pattern, and the counter behind it. */
  function Allocate(counter: nat, forced: Option<nat>): (nat, nat) {
    match forced
    case Some(group) => (group, counter)
    case None => (counter, if counter == U32_MAX then counter else counter + 1)
  }

  /** Gives all patterns numbered `index` the end `end`. */
  function Extend(ps: seq<FallbackPattern>, index: nat, end: nat): (r: seq<FallbackPattern>)
    ensures |r| == |ps|
    ensures forall k :: 0 <= k < |ps| ==> r[k] == if ps[k].index == index then ps[k].(end := end) else ps[k]
  {
    seq(|ps|, k requires 0 <= k < |ps| => if ps[k].index == index then ps[k].(end := end) else ps[k])
  }

  function Repeat(n: nat, p: FallbackPattern): (r: seq<FallbackPattern>)
    ensures |r| == n && forall k :: 0 <= k < n ==> r[k] == p
  {
    seq(n, _ => p)
  }

  /** What one round of the parser does: where it goes on, the counter, the patterns so far. */
  datatype Round = Fail | On(i: nat, counter: nat, patterns: seq<FallbackPattern>)

  predicate Advances(r: Round, at: nat, end: nat) { r.On? ==> at < r.i <= end }

  /** The patterns in `s[i..end]` behind those in `acc`, and the counter behind them. */
  function Collect(unquote: Unquote, s: string, i: nat, end: nat, counter: nat, forced: Option<nat>, acc: seq<FallbackPattern>)
    : Option<(seq<FallbackPattern>, nat)>
    requires i <= end <= |s|
    decreases end - i, 1
  {
    var at := SpaceFrom(s, i, end);
    if at == end then Some((acc, counter))
    else
      match RoundAt(unquote, s, at, end, counter, forced, acc)
      case Fail => None
      case On(j, c, ps) => Collect(unquote, s, j, end, c, forced, ps)
  }

  function RoundAt(unquote: Unquote, s: string, at: nat, end: nat, counter: nat, forced: Option<nat>, acc: seq<FallbackPattern>)
    : (r: Round)
    requires at < end <= |s|
    ensures Advances(r, at, end)
    decreases end - at, 0
  {
    if s[at] == '(' then RoundParen(unquote, s, at, end, counter, forced, acc)
    else if s[at] == '\"' then RoundLiteral(unquote, s, at, end, counter, forced, acc)
    else if s[at] == '[' then
      var (close, ok) := Balanced(s, at, end, Plain, 0, '[', ']');
      if !ok then Fail
      else
        var (group, next) := Allocate(counter, forced);
        match Collect(unquote, s, at + 1, close, next, Some(group), [])
        case None => Fail
        case Some((inner, after)) =>
          var j := SuffixFrom(s, close + 1, end);
          On(j, after, acc + Repeat(|inner|, FallbackPattern(group, at, j)))
    else if IsQuantifier(s[at]) then On(at + 1, counter, acc)
    else Fail
  }

  function RoundParen(unquote: Unquote, s: string, at: nat, end: nat, counter: nat, forced: Option<nat>, acc: seq<FallbackPattern>)
    : (r: Round)
    requires at < end <= |s| && s[at] == '('
    ensures Advances(r, at, end)
  {
    var (close, ok) := Balanced(s, at, end, Plain, 0, '(', ')');
    if !ok then Fail
    else if HasNodeType(unquote, s, at, close) then
      var j := SuffixFrom(s, close + 1, end);
      var (group, next) := Allocate(counter, forced);
      On(j, next, acc + [FallbackPattern(group, at, j)])
    else if acc != [] && IsPredicate(s, at, close) then
      On(close + 1, counter, Extend(acc, acc[|acc| - 1].index, close + 1))
    else On(close + 1, counter, acc)
  }

  function RoundLiteral(unquote: Unquote, s: string, at: nat, end: nat, counter: nat, forced: Option<nat>, acc: seq<FallbackPattern>)
    : (r: Round)
    requires at < end <= |s| && s[at] == '\"'
    ensures Advances(r, at, end)
  {
    var close := QuotedFrom(s, at + 1, false);
    if close > end || Decoded(unquote, s[at..close]).None? then Fail
    else
      var j := SuffixFrom(s, close, end);
      var last := if j < end && IsQuantifier(s[j]) then j + 1 else j;
      var (group, next) := Allocate(counter, forced);
      On(last, next, acc + [FallbackPattern(group, at, last)])
  }

  // ---------------------------------------------------------------- the parser as it runs

  method SkipQuantifier(s: string, start: nat, end: nat) returns (j: nat)
    requires start <= end <= |s|
    ensures j == QuantifierFrom(s, start, end)
  {
    j := SkipFallbackSpace(s, start, end);
    if j < end && IsQuantifier(s[j]) {
      j := SkipFallbackSpace(s, j + 1, end);
    }
  }

  method ParseCaptures(s: string, start: nat, end: nat) returns (j: nat)
    requires start <= end <= |s|
    ensures j == CapturesFrom(s, start, end)
  {
    j := start;
    while j < end && s[j] == '@'
      invariant start <= j <= end && CapturesFrom(s, j, end) == CapturesFrom(s, start, end)
      decreases end - j
    {
      if !IsCapture(s, j, end) {
        break;
      }
      j := SkipQuantifier(s, IdentFrom(s, j + 1, end), end);
    }
  }

  method ParseSuffix(s: string, start: nat, end: nat) returns (j: nat)
    requires start <= end <= |s|
    ensures j == SuffixFrom(s, start, end)
  {
    j := SkipQuantifier(s, start, end);
    j := ParseCaptures(s, j, end);
  }

  /** A predicate belongs to every branch of the pattern before it. */
  method ExtendLast(patterns: seq<FallbackPattern>, end: nat) returns (r: seq<FallbackPattern>)
    requires patterns != []
    ensures r == Extend(patterns, patterns[|patterns| - 1].index, end)
  {
    var group := patterns[|patterns| - 1].index;
    r := patterns;
    var index := 0;
    while index < |r|
      invariant 0 <= index <= |r| == |patterns|
      invariant forall k :: 0 <= k < index ==> r[k] == if patterns[k].index == group then patterns[k].(end := end) else patterns[k]
      invariant forall k :: index <= k < |patterns| ==> r[k] == patterns[k]
    {
      if r[index].index == group {
        r := r[index := r[index].(end := end)];
      }
      index := index + 1;
    }
  }

  /** Every branch gets the number and the span of its alternation. */
  method Enclose(inner: seq<FallbackPattern>, group: nat, start: nat, end: nat) returns (r: seq<FallbackPattern>)
    ensures r == Repeat(|inner|, FallbackPattern(group, start, end))
  {
    r := inner;
    var index := 0;
    while index < |r|
      invariant 0 <= index <= |r| == |inner|
      invariant forall k :: 0 <= k < index ==> r[k] == FallbackPattern(group, start, end)
    {
      r := r[index := r[index].(index := group, start := start, end := end)];
      index := index + 1;
    }
  }

  method ParseExpression(unquote: Unquote, s: string, at: nat, end: nat, counter: nat, forced: Option<nat>, patterns: seq<FallbackPattern>)
    returns (r: Round)
    requires at < end <= |s| && s[at] == '('
    ensures r == RoundParen(unquote, s, at, end, counter, forced, patterns)
  {
    var close, ok := FallbackBalancedEnd(s, at, end, '(', ')');
    if !ok {
      return Fail;
    }
    if HasNodeType(unquote, s, at, close) {
      var (group, next) := Allocate(counter, forced);
      var j := ParseSuffix(s, close + 1, end);
      return On(j, next, patterns + [FallbackPattern(group, at, j)]);
    }
    if patterns != [] && IsPredicate(s, at, close) {
      var extended := ExtendLast(patterns, close + 1);
      return On(close + 1, counter, extended);
    }
    return On(close + 1, counter, patterns);
  }

  method ParseLiteral(unquote: Unquote, s: string, at: nat, end: nat, counter: nat, forced: Option<nat>, patterns: seq<FallbackPattern>)
    returns (r: Round)
    requires at < end <= |s| && s[at] == '\"'
    ensures r == RoundLiteral(unquote, s, at, end, counter, forced, patterns)
  {
    var close := SkipQueryQuoted(s, at);
    if close > end || Decoded(unquote, s[at..close]).None? {
      return Fail;
    }
    var (group, next) := Allocate(counter, forced);
    var j := ParseSuffix(s, close, end);
    if j < end && IsQuantifier(s[j]) {
      j := j + 1;
    }
    return On(j, next, patterns + [FallbackPattern(group, at, j)]);
  }

  method ParseAlternation(unquote: Unquote, s: string, at: nat, end: nat, counter: nat, forced: Option<nat>, patterns: seq<FallbackPattern>)
    returns (r: Round)
    requires at < end <= |s| && s[at] == '['
    ensures r == RoundAt(unquote, s, at, end, counter, forced, patterns)
    decreases end - at, 0
  {
    var close, ok := FallbackBalancedEnd(s, at, end, '[', ']');
    if !ok {
      return Fail;
    }
    var (group, next) := Allocate(counter, forced);
    var branches := ParseFallbackTopLevelWithGroups(unquote, s, at + 1, close, next, Some(group));
    if branches.None? {
      return Fail;
    }
    var j := ParseSuffix(s, close + 1, end);
    var inner := Enclose(branches.value.0, group, at, j);
    return On(j, branches.value.1, patterns + inner);
  }

  method ParseFallbackTopLevelWithGroups(unquote: Unquote, s: string, begin: nat, end: nat, counter0: nat, forced: Option<nat>)
    returns (r: Option<(seq<FallbackPattern>, nat)>)
    requires begin <= end <= |s|
    ensures r == Collect(unquote, s, begin, end, counter0, forced, [])
    decreases end - begin, 1
  {
    var patterns, counter := [], counter0;
    var i := begin;
    while i < end
      invariant begin <= i <= end
      invariant Collect(unquote, s, i, end, counter, forced, patterns) == Collect(unquote, s, begin, end, counter0, forced, [])
      decreases end - i
    {
      i := SkipFallbackSpace(s, i, end);
      if i >= end {
        break;
      }
      ghost var round := RoundAt(unquote, s, i, end, counter, forced, patterns);
      var done := Fail;
      if s[i] == '(' {
        done := ParseExpression(unquote, s, i, end, counter, forced, patterns);
      } else if s[i] == '\"' {
        done := ParseLiteral(unquote, s, i, end, counter, forced, patterns);
      } else if s[i] == '[' {
        done := ParseAlternation(unquote, s, i, end, counter, forced, patterns);
      } else if IsQuantifier(s[i]) {
        done := On(i + 1, counter, patterns);
      }
      assert done == round;
      if done.Fail? {
        return None;
      }
      i, counter, patterns := done.i, done.counter, done.patterns;
    }
    return Some((patterns, counter));
  }

  /** One more than the largest number, but never beyond 32 bits. */
  predicate IsCount(patterns: seq<FallbackPattern>, count: nat) {
    if patterns == [] then count == 0
    else
      && (forall k :: 0 <= k < |patterns| ==> patterns[k].index < count || count == U32_MAX)
      && exists k :: 0 <= k < |patterns| && count == if patterns[k].index == U32_MAX then U32_MAX else patterns[k].index + 1
  }

  method FallbackPatternCount(patterns: seq<FallbackPattern>) returns (count: nat)
    requires forall k :: 0 <= k < |patterns| ==> patterns[k].index <= U32_MAX
    ensures IsCount(patterns, count) && count <= U32_MAX
  {
    if |patterns| == 0 {
      return 0;
    }
    var max := 0;
    var k := 0;
    ghost var best := 0;
    while k < |patterns|
      invariant 0 <= k <= |patterns|
      invariant forall m :: 0 <= m < k ==> patterns[m].index <= max
      invariant 0 <= best < |patterns| && max == if k == 0 then 0 else patterns[best].index
      invariant max <= U32_MAX
    {
      if patterns[k].index > max || k == 0 {
        best := k;
      }
      if patterns[k].index > max {
        max := patterns[k].index;
      }
      k := k + 1;
    }
    return if max == U32_MAX then U32_MAX else max + 1;
  }

  // ---------------------------------------------------------------- numbers and spans

  /** Patterns in source order: numbers below `n` that never go back, one span for each
  number, and spans of different numbers disjoint, in the order of the numbers. */
  ghost predicate Numbered(ps: seq<FallbackPattern>, n: nat, limit: nat) {
    && (forall k :: 0 <= k < |ps| ==> ps[k].index < n && ps[k].start < ps[k].end <= limit)
    && (forall a, b :: 0 <= a < b < |ps| ==> InOrder(ps[a], ps[b]))
  }

  predicate InOrder(p: FallbackPattern, q: FallbackPattern) {
    || (p.index < q.index && p.end <= q.start)
    || (p.index == q.index && p.start == q.start && p.end == q.end)
  }

  lemma {:induction false} NumberedAppend(ps: seq<FallbackPattern>, n: nat, start: nat, end: nat, count: nat)
    requires Numbered(ps, n, start) && start < end
    ensures Numbered(ps + Repeat(count, FallbackPattern(n, start, end)), n + 1, end)
  {
  }

  lemma {:induction false} NumberedExtend(ps: seq<FallbackPattern>, n: nat, limit: nat, end: nat)
    requires Numbered(ps, n, limit) && ps != [] && limit < end
    ensures Numbered(Extend(ps, ps[|ps| - 1].index, end), n, end)
  {
    var last := |ps| - 1;
    var r := Extend(ps, ps[last].index, end);
    forall k | 0 <= k < |ps|
      ensures k == last || InOrder(ps[k], ps[last])
    {
    }
  }

  /** Inside an alternation no number is used up. */
  lemma {:induction false} ForcedKeepsCounter(unquote: Unquote, s: string, i: nat, end: nat, counter: nat, group: nat, acc: seq<FallbackPattern>)
    requires i <= end <= |s|
    ensures var r := Collect(unquote, s, i, end, counter, Some(group), acc); r.Some? ==> r.value.1 == counter
    decreases end - i, 1
  {
    var at := SpaceFrom(s, i, end);
    if at < end {
      RoundKeepsCounter(unquote, s, at, end, counter, group, acc);
      var round := RoundAt(unquote, s, at, end, counter, Some(group), acc);
      if round.On? {
        ForcedKeepsCounter(unquote, s, round.i, end, counter, group, round.patterns);
      }
    }
  }

  lemma {:induction false} RoundKeepsCounter(unquote: Unquote, s: string, at: nat, end: nat, counter: nat, group: nat, acc: seq<FallbackPattern>)
    requires at < end <= |s|
    ensures var r := RoundAt(unquote, s, at, end, counter, Some(group), acc); r.On? ==> r.counter == counter
    decreases end - at, 0
  {
    if s[at] == '[' {
      var (close, ok) := Balanced(s, at, end, Plain, 0, '[', ']');
      if ok {
        ForcedKeepsCounter(unquote, s, at + 1, close, counter, group, []);
      }
    }
  }

  /** Whatever text the parser accepts, its patterns come out numbered. */
  lemma {:induction false} CollectNumbers(unquote: Unquote, s: string, i: nat, end: nat, counter: nat, acc: seq<FallbackPattern>)
    requires i <= end <= |s| <= U32_MAX && counter <= i && Numbered(acc, counter, i)
    ensures var r := Collect(unquote, s, i, end, counter, None, acc);
      r.Some? ==> Numbered(r.value.0, r.value.1, end) && counter <= r.value.1 <= end
    decreases end - i
  {
    var at := SpaceFrom(s, i, end);
    if at < end {
      var round := RoundAt(unquote, s, at, end, counter, None, acc);
      RoundNumbers(unquote, s, at, end, counter, acc);
      if round.On? {
        CollectNumbers(unquote, s, round.i, end, round.counter, round.patterns);
      }
    }
  }

  /** What a round that goes on leaves numbered. */
  ghost predicate GoesNumbered(r: Round, counter: nat) {
    r.On? ==> Numbered(r.patterns, r.counter, r.i) && counter <= r.counter <= r.i
  }

  lemma {:induction false} RoundNumbers(unquote: Unquote, s: string, at: nat, end: nat, counter: nat, acc: seq<FallbackPattern>)
    requires at < end <= |s| <= U32_MAX && counter <= at && Numbered(acc, counter, at)
    ensures GoesNumbered(RoundAt(unquote, s, at, end, counter, None, acc), counter)
  {
    if s[at] == '(' {
      ParenNumbers(unquote, s, at, end, counter, acc);
    } else if s[at] == '\"' {
      LiteralNumbers(unquote, s, at, end, counter, acc);
    } else if s[at] == '[' {
      ChoiceNumbers(unquote, s, at, end, counter, acc);
    }
  }

  lemma {:induction false} LiteralNumbers(unquote: Unquote, s: string, at: nat, end: nat, counter: nat, acc: seq<FallbackPattern>)
    requires at < end <= |s| <= U32_MAX && s[at] == '\"' && counter <= at && Numbered(acc, counter, at)
    ensures GoesNumbered(RoundLiteral(unquote, s, at, end, counter, None, acc), counter)
  {
    var r := RoundLiteral(unquote, s, at, end, counter, None, acc);
    if r.On? {
      NumberedOne(acc, counter, at, r.i);
    }
  }

  lemma {:induction false} NumberedOne(ps: seq<FallbackPattern>, n: nat, start: nat, end: nat)
    requires Numbered(ps, n, start) && start < end
    ensures Numbered(ps + [FallbackPattern(n, start, end)], n + 1, end)
  {
    NumberedAppend(ps, n, start, end, 1);
    assert Repeat(1, FallbackPattern(n, start, end)) == [FallbackPattern(n, start, end)];
  }

  lemma {:induction false} ChoiceNumbers(unquote: Unquote, s: string, at: nat, end: nat, counter: nat, acc: seq<FallbackPattern>)
    requires at < end <= |s| <= U32_MAX && s[at] == '[' && counter <= at && Numbered(acc, counter, at)
    ensures GoesNumbered(RoundAt(unquote, s, at, end, counter, None, acc), counter)
  {
    var r := RoundAt(unquote, s, at, end, counter, None, acc);
    if r.On? {
      var close := Balanced(s, at, end, Plain, 0, '[', ']').0;
      ForcedKeepsCounter(unquote, s, at + 1, close, counter + 1, counter, []);
      var inner := Collect(unquote, s, at + 1, close, counter + 1, Some(counter), []).value.0;
      NumberedAppend(acc, counter, at, r.i, |inner|);
    }
  }

  lemma {:induction false} ParenNumbers(unquote: Unquote, s: string, at: nat, end: nat, counter: nat, acc: seq<FallbackPattern>)
    requires at < end <= |s| <= U32_MAX && s[at] == '(' && counter <= at && Numbered(acc, counter, at)
    ensures GoesNumbered(RoundParen(unquote, s, at, end, counter, None, acc), counter)
  {
    var (close, ok) := Balanced(s, at, end, Plain, 0, '(', ')');
    if ok {
      var r := RoundParen(unquote, s, at, end, counter, None, acc);
      if HasNodeType(unquote, s, at, close) {
        NumberedOne(acc, counter, at, r.i);
      } else if acc != [] && IsPredicate(s, at, close) {
        NumberedExtend(acc, counter, at, close + 1);
      }
    }
  }

  /** Numbers that fit 32 bits, whatever the length of the text. */
  ghost predicate Fits(ps: seq<FallbackPattern>) { forall k :: 0 <= k < |ps| ==> ps[k].index <= U32_MAX }

  lemma {:induction false} NumbersFit(unquote: Unquote, s: string, i: nat, end: nat, counter: nat, forced: Option<nat>, acc: seq<FallbackPattern>)
    requires i <= end <= |s| && counter <= U32_MAX && (forced.Some? ==> forced.value <= U32_MAX) && Fits(acc)
    ensures var r := Collect(unquote, s, i, end, counter, forced, acc); r.Some? ==> Fits(r.value.0) && r.value.1 <= U32_MAX
    decreases end - i, 1
  {
    var at := SpaceFrom(s, i, end);
    if at < end {
      RoundFits(unquote, s, at, end, counter, forced, acc);
      var r := RoundAt(unquote, s, at, end, counter, forced, acc);
      if r.On? {
        NumbersFit(unquote, s, r.i, end, r.counter, forced, r.patterns);
      }
    }
  }

  lemma {:induction false} RoundFits(unquote: Unquote, s: string, at: nat, end: nat, counter: nat, forced: Option<nat>, acc: seq<FallbackPattern>)
    requires at < end <= |s| && counter <= U32_MAX && (forced.Some? ==> forced.value <= U32_MAX) && Fits(acc)
    ensures var r := RoundAt(unquote, s, at, end, counter, forced, acc); r.On? ==> Fits(r.patterns) && r.counter <= U32_MAX
    decreases end - at, 0
  {
    if s[at] == '[' {
      var (close, ok) := Balanced(s, at, end, Plain, 0, '[', ']');
      if ok {
        var (group, next) := Allocate(counter, forced);
        NumbersFit(unquote, s, at + 1, close, next, Some(group), []);
      }
    }
  }

  // ---------------------------------------------------------------- numbers without a pattern

  ghost predicate IsCarried(ps: seq<FallbackPattern>, g: int) { exists k :: 0 <= k < |ps| && ps[k].index == g }

  /** Every number below `n` belongs to a pattern. */
  ghost predicate AllCarried(ps: seq<FallbackPattern>, n: nat) { forall g :: 0 <= g < n ==> IsCarried(ps, g) }

  /** Where the expression that starts at `at` ends, read off the text: with its quantifier
  and captures, which a parenthesised expression without a node type does not take. */
  function ItemEnd(unquote: Unquote, s: string, at: nat, end: nat): (r: nat)
    requires at < end <= |s|
    ensures at < r <= end
  {
    if s[at] == '(' || s[at] == '[' then
      var (close, ok) := Balanced(s, at, end, Plain, 0, s[at], if s[at] == '(' then ')' else ']');
      if !ok then end
      else if s[at] == '(' && !HasNodeType(unquote, s, at, close) then close + 1
      else SuffixFrom(s, close + 1, end)
    else if s[at] == '\"' then
      var close := QuotedFrom(s, at + 1, false);
      if close > end then end
      else
        var j := SuffixFrom(s, close, end);
        if j < end && IsQuantifier(s[j]) then j + 1 else j
    else at + 1
  }

  /** Between `i` and `end` stand only blanks, comments, quantifier bytes, parenthesised
  expressions without a node type, and alternations of the same kind. */
  predicate Barren(unquote: Unquote, s: string, i: nat, end: nat)
    requires i <= end <= |s|
    decreases end - i, 2
  {
    var at := SpaceFrom(s, i, end);
    at == end || (BarrenItem(unquote, s, at, end) && Barren(unquote, s, ItemEnd(unquote, s, at, end), end))
  }

  predicate BarrenItem(unquote: Unquote, s: string, at: nat, end: nat)
    requires at < end <= |s|
    decreases end - at, 1
  {
    if s[at] == '(' then
      var (close, ok) := Balanced(s, at, end, Plain, 0, '(', ')');
      ok && !HasNodeType(unquote, s, at, close)
    else IsQuantifier(s[at]) || IsEmptyChoice(unquote, s, at, end)
  }

  /** An alternation at `at` with nothing between its brackets to be a pattern, like `[*]`. */
  predicate IsEmptyChoice(unquote: Unquote, s: string, at: nat, end: nat)
    requires at < end <= |s|
    decreases end - at, 0
  {
    && s[at] == '['
    && var (close, ok) := Balanced(s, at, end, Plain, 0, '[', ']');
       ok && Barren(unquote, s, at + 1, close)
  }

  /** Whether one of the top-level expressions in `s[i..end]` is such an alternation. */
  predicate HasEmptyChoice(unquote: Unquote, s: string, i: nat, end: nat)
    requires i <= end <= |s|
    decreases end - i
  {
    var at := SpaceFrom(s, i, end);
    at < end && (IsEmptyChoice(unquote, s, at, end) || HasEmptyChoice(unquote, s, ItemEnd(unquote, s, at, end), end))
  }

  /** The parser accepts a text and adds no pattern for it exactly when the text is barren. */
  lemma {:induction false} BarrenIff(unquote: Unquote, s: string, i: nat, end: nat, counter: nat, forced: Option<nat>, acc: seq<FallbackPattern>)
    requires i <= end <= |s|
    ensures var r := Collect(unquote, s, i, end, counter, forced, acc);
      && (r.Some? ==> |acc| <= |r.value.0|)
      && (r.Some? && |r.value.0| == |acc| <==> Barren(unquote, s, i, end))
    decreases end - i, 2
  {
    var at := SpaceFrom(s, i, end);
    if at < end {
      var r := RoundAt(unquote, s, at, end, counter, forced, acc);
      RoundBarrenIff(unquote, s, at, end, counter, forced, acc);
      if r.On? {
        BarrenIff(unquote, s, r.i, end, r.counter, forced, r.patterns);
      }
    }
  }

  /** What one round's outcome says about the expression it read. */
  ghost predicate RoundSays(unquote: Unquote, s: string, at: nat, end: nat, acc: seq<FallbackPattern>, r: Round)
    requires at < end <= |s|
  {
    && (r.On? ==> |acc| <= |r.patterns| && r.i == ItemEnd(unquote, s, at, end))
    && (r.On? && |r.patterns| == |acc| <==> BarrenItem(unquote, s, at, end))
  }

  lemma {:induction false} ParenBarrenIff(unquote: Unquote, s: string, at: nat, end: nat, counter: nat, forced: Option<nat>, acc: seq<FallbackPattern>)
    requires at < end <= |s| && s[at] == '('
    ensures RoundSays(unquote, s, at, end, acc, RoundParen(unquote, s, at, end, counter, forced, acc))
  {
  }

  lemma {:induction false} LiteralBarrenIff(unquote: Unquote, s: string, at: nat, end: nat, counter: nat, forced: Option<nat>, acc: seq<FallbackPattern>)
    requires at < end <= |s| && s[at] == '\"'
    ensures RoundSays(unquote, s, at, end, acc, RoundLiteral(unquote, s, at, end, counter, forced, acc))
  {
  }

  lemma {:induction false} RoundBarrenIff(unquote: Unquote, s: string, at: nat, end: nat, counter: nat, forced: Option<nat>, acc: seq<FallbackPattern>)
    requires at < end <= |s|
    ensures RoundSays(unquote, s, at, end, acc, RoundAt(unquote, s, at, end, counter, forced, acc))
    decreases end - at, 1
  {
    if s[at] == '(' {
      ParenBarrenIff(unquote, s, at, end, counter, forced, acc);
    } else if s[at] == '\"' {
      LiteralBarrenIff(unquote, s, at, end, counter, forced, acc);
    } else if s[at] == '[' {
      ChoiceBarrenIff(unquote, s, at, end, counter, forced, acc);
    }
  }

  lemma {:induction false} ChoiceBarrenIff(unquote: Unquote, s: string, at: nat, end: nat, counter: nat, forced: Option<nat>, acc: seq<FallbackPattern>)
    requires at < end <= |s| && s[at] == '['
    ensures RoundSays(unquote, s, at, end, acc, RoundAt(unquote, s, at, end, counter, forced, acc))
    decreases end - at, 0
  {
    var (close, ok) := Balanced(s, at, end, Plain, 0, '[', ']');
    if ok {
      var (group, next) := Allocate(counter, forced);
      BarrenIff(unquote, s, at + 1, close, next, Some(group), []);
    }
  }

  /** Between `i` and `end` stand only blanks, comments, quantifier bytes, parenthesised
  expressions that close, literals that close and decode, and alternations of all these. */
  predicate Readable(unquote: Unquote, s: string, i: nat, end: nat)
    requires i <= end <= |s|
    decreases end - i, 2
  {
    var at := SpaceFrom(s, i, end);
    at == end || (ReadableItem(unquote, s, at, end) && Readable(unquote, s, ItemEnd(unquote, s, at, end), end))
  }

  predicate ReadableItem(unquote: Unquote, s: string, at: nat, end: nat)
    requires at < end <= |s|
    decreases end - at, 1
  {
    || IsQuantifier(s[at])
    || (s[at] == '(' && Balanced(s, at, end, Plain, 0, '(', ')').1)
    || (s[at] == '\"' && ReadableLiteral(unquote, s, at, QuotedFrom(s, at + 1, false), end))
    || (s[at] == '[' && ReadableChoice(unquote, s, at, end))
  }

  /** A literal that closes within the bounds and decodes. */
  predicate ReadableLiteral(unquote: Unquote, s: string, at: nat, close: nat, end: nat)
    requires at < end <= |s|
  {
    at + 1 < close <= end && s[close - 1] == '\"' && unquote(s[at..close]).Some?
  }

  predicate ReadableChoice(unquote: Unquote, s: string, at: nat, end: nat)
    requires at < end <= |s| && s[at] == '['
    decreases end - at, 0
  {
    var (close, ok) := Balanced(s, at, end, Plain, 0, '[', ']');
    ok && Readable(unquote, s, at + 1, close)
  }

  /** The parser accepts exactly such texts, whatever the numbers and the patterns so far. */
  lemma {:induction false} AcceptedIffReadable(unquote: Unquote, s: string, i: nat, end: nat, counter: nat, forced: Option<nat>,
                                              acc: seq<FallbackPattern>)
    requires i <= end <= |s|
    ensures Collect(unquote, s, i, end, counter, forced, acc).Some? <==> Readable(unquote, s, i, end)
    decreases end - i, 2
  {
    var at := SpaceFrom(s, i, end);
    if at < end {
      var r := RoundAt(unquote, s, at, end, counter, forced, acc);
      RoundIffReadable(unquote, s, at, end, counter, forced, acc);
      RoundBarrenIff(unquote, s, at, end, counter, forced, acc);
      if r.On? {
        AcceptedIffReadable(unquote, s, r.i, end, r.counter, forced, r.patterns);
      }
    }
  }

  lemma {:induction false} RoundIffReadable(unquote: Unquote, s: string, at: nat, end: nat, counter: nat, forced: Option<nat>,
                                           acc: seq<FallbackPattern>)
    requires at < end <= |s|
    ensures RoundAt(unquote, s, at, end, counter, forced, acc).On? <==> ReadableItem(unquote, s, at, end)
    decreases end - at, 1
  {
    if s[at] == '[' {
      var (close, ok) := Balanced(s, at, end, Plain, 0, '[', ']');
      if ok {
        var (group, next) := Allocate(counter, forced);
        AcceptedIffReadable(unquote, s, at + 1, close, next, Some(group), []);
      }
    }
  }

  ghost predicate Below(ps: seq<FallbackPattern>, n: nat) { forall k :: 0 <= k < |ps| ==> ps[k].index < n }

  lemma {:induction false} AppendCarries(acc: seq<FallbackPattern>, n: nat, count: nat, p: FallbackPattern)
    requires Below(acc, n) && p.index == n
    ensures Below(acc + Repeat(count, p), n + 1)
    ensures AllCarried(acc + Repeat(count, p), n + 1) <==> AllCarried(acc, n) && count > 0
  {
    var r := acc + Repeat(count, p);
    if AllCarried(r, n + 1) {
      assert IsCarried(r, n);
      forall g | 0 <= g < n
        ensures IsCarried(acc, g)
      {
        assert IsCarried(r, g);
      }
    }
    if AllCarried(acc, n) && count > 0 {
      assert r[|acc|].index == n;
      forall g | 0 <= g < n + 1
        ensures IsCarried(r, g)
      {
        if g < n {
          assert IsCarried(acc, g);
          var k :| 0 <= k < |acc| && acc[k].index == g;
          assert r[k].index == g;
        }
      }
    }
  }

  lemma {:induction false} ExtendCarries(acc: seq<FallbackPattern>, n: nat, index: nat, end: nat)
    requires Below(acc, n)
    ensures Below(Extend(acc, index, end), n) && (AllCarried(Extend(acc, index, end), n) <==> AllCarried(acc, n))
  {
    var r := Extend(acc, index, end);
    assert forall k :: 0 <= k < |acc| ==> r[k].index == acc[k].index;
    forall g
      ensures IsCarried(r, g) <==> IsCarried(acc, g)
    {
      if IsCarried(acc, g) {
        var k :| 0 <= k < |acc| && acc[k].index == g;
        assert r[k].index == g;
      }
    }
  }

  lemma {:induction false} RoundCarries(unquote: Unquote, s: string, at: nat, end: nat, counter: nat, acc: seq<FallbackPattern>)
    requires at < end <= |s| && Below(acc, counter) && counter < U32_MAX
    ensures var r := RoundAt(unquote, s, at, end, counter, None, acc);
      r.On? ==>
        && Below(r.patterns, r.counter) && r.counter <= counter + 1
        && (AllCarried(r.patterns, r.counter) <==> AllCarried(acc, counter) && !IsEmptyChoice(unquote, s, at, end))
  {
    var r := RoundAt(unquote, s, at, end, counter, None, acc);
    if r.On? {
      var p := FallbackPattern(counter, at, r.i);
      assert Repeat(1, p) == [p];
      if s[at] == '(' {
        var close := Balanced(s, at, end, Plain, 0, '(', ')').0;
        if HasNodeType(unquote, s, at, close) {
          AppendCarries(acc, counter, 1, p);
        } else if acc != [] && IsPredicate(s, at, close) {
          ExtendCarries(acc, counter, acc[|acc| - 1].index, close + 1);
        }
      } else if s[at] == '\"' {
        AppendCarries(acc, counter, 1, p);
      } else if s[at] == '[' {
        var close := Balanced(s, at, end, Plain, 0, '[', ']').0;
        ForcedKeepsCounter(unquote, s, at + 1, close, counter + 1, counter, []);
        BarrenIff(unquote, s, at + 1, close, counter + 1, Some(counter), []);
        AppendCarries(acc, counter, |Collect(unquote, s, at + 1, close, counter + 1, Some(counter), []).value.0|, p);
      }
    }
  }

  /** Every number of an accepted text is carried by a pattern exactly when none of its
  top-level expressions is an empty alternation. */
  lemma {:induction false} NumbersCarriedIff(unquote: Unquote, s: string, i: nat, end: nat, counter: nat, acc: seq<FallbackPattern>)
    requires i <= end <= |s| <= U32_MAX && Below(acc, counter) && counter <= i
    ensures var r := Collect(unquote, s, i, end, counter, None, acc);
      r.Some? ==> (AllCarried(r.value.0, r.value.1) <==> AllCarried(acc, counter) && !HasEmptyChoice(unquote, s, i, end))
    decreases end - i
  {
    var at := SpaceFrom(s, i, end);
    if at < end {
      var r := RoundAt(unquote, s, at, end, counter, None, acc);
      RoundCarries(unquote, s, at, end, counter, acc);
      RoundBarrenIff(unquote, s, at, end, counter, None, acc);
      if r.On? {
        NumbersCarriedIff(unquote, s, r.i, end, r.counter, r.patterns);
      }
    }
  }

  /** `[*](a)`: the alternation takes number 0, and no pattern carries it. */
  lemma {:induction false} EmptyChoiceSkipsNumber(unquote: Unquote)
    ensures Collect(unquote, "[*](a)", 0, 6, 0, None, []) == Some(([FallbackPattern(1, 3, 6)], 2))
    ensures HasEmptyChoice(unquote, "[*](a)", 0, 6)
  {
    var s := "[*](a)";
    assert s[0] == '[' && s[1] == '*' && s[2] == ']' && s[3] == '(' && s[4] == 'a' && s[5] == ')';
    ReadsEmptyChoice(unquote, s);
    ReadsNode(unquote, s);
  }

  lemma {:induction false} ReadsEmptyChoice(unquote: Unquote, s: string)
    requires s == "[*](a)"
    ensures RoundAt(unquote, s, 0, 6, 0, None, []) == On(3, 1, []) && IsEmptyChoice(unquote, s, 0, 6)
  {
    assert s[0] == '[' && s[1] == '*' && s[2] == ']' && s[3] == '(';
    assert Balanced(s, 2, 6, Plain, 1, '[', ']') == (2, true);
    assert Balanced(s, 0, 6, Plain, 0, '[', ']') == (2, true);
    assert SpaceFrom(s, 1, 2) == 1 && SpaceFrom(s, 2, 2) == 2;
    assert SuffixFrom(s, 3, 6) == 3;
    assert Collect(unquote, s, 1, 2, 1, Some(0), []) == Some(([], 1));
    assert ItemEnd(unquote, s, 1, 2) == 2 && Barren(unquote, s, 1, 2);
    assert Repeat(0, FallbackPattern(0, 0, 3)) == [];
  }

  lemma {:induction false} ReadsNode(unquote: Unquote, s: string)
    requires s == "[*](a)"
    ensures RoundAt(unquote, s, 3, 6, 1, None, []) == On(6, 2, [FallbackPattern(1, 3, 6)])
  {
    assert s[3] == '(' && s[4] == 'a' && s[5] == ')';
    assert Balanced(s, 5, 6, Plain, 1, '(', ')') == (5, true);
    assert Balanced(s, 3, 6, Plain, 0, '(', ')') == (5, true);
    assert SpaceFrom(s, 4, 5) == 4;
    assert HasNodeType(unquote, s, 3, 5);
    assert SuffixFrom(s, 6, 6) == 6;
  }
}
