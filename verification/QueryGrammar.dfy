/** The grammar of queries, told by parse trees with positions and without a parser's
lookahead: the validator accepts a text exactly when it has such a tree. */
module QueryGrammar {
  import opened Values
  import opened QueryText
  import V = QueryValidator

  /** A pattern: where it starts, what it is, where that ends, the quantifiers and captures
  behind it, and where the blanks behind those end. */
  datatype Tree = Tree(start: nat, form: Form, close: nat, marks: seq<nat>, stop: nat)

  /** `root` and `head` are where a node's type ends, without and with its subtype; of a
  predicate only where each argument ends is kept. */
  datatype Form =
    | Wildcard
    | Text
    | Field(value: Tree)
    | Branches(items: seq<Item>)
    | Members(items: seq<Item>)
    | Node(root: nat, head: nat, items: seq<Item>)
    | Test(arguments: seq<nat>)

  datatype Item = Direct(tree: Tree) | Anchored(tree: Tree) | Negated(name: nat, end: nat)

  type Unquotes = string -> bool

  // ---------------------------------------------------------------- the grammar

  predicate AllDirect(items: seq<Item>) { forall k :: 0 <= k < |items| ==> items[k].Direct? }

  predicate NoneNegated(items: seq<Item>) { forall k :: 0 <= k < |items| ==> !items[k].Negated? }

  predicate IsName(s: string, i: nat, j: nat) { i < |s| && IsIdentStart(s[i]) && j == IdentFrom(s, i, |s|) }

  predicate IsText(u: Unquotes, s: string, i: nat, j: nat) {
    i + 1 < j <= |s| && s[i] == '\"' && s[j - 1] == '\"' && QuotedFrom(s, i + 1, false) == j && u(s[i..j])
  }

  predicate IsMark(c: char) { IsQuantifier(c) || c == '@' }

  /** Quantifiers and captures from `i` on, as many as there are, and the blanks behind them. */
  predicate IsSuffix(s: string, i: nat, marks: seq<nat>, stop: nat)
    decreases marks
  {
    && i <= |s|
    && var at := SpaceFrom(s, i, |s|);
       if at == |s| || !IsMark(s[at]) then marks == [] && stop == at
       else
         && marks != [] && marks[0] == at
         && (s[at] == '@' ==> at + 1 < |s| && IsIdentStart(s[at + 1]))
         && IsSuffix(s, if s[at] == '@' then IdentFrom(s, at + 1, |s|) else at + 1, marks[1..], stop)
  }

  predicate IsTree(u: Unquotes, s: string, t: Tree)
    decreases t
  {
    IsForm(u, s, t.start, t.form, t.close) && IsSuffix(s, t.close, t.marks, t.stop)
  }

  predicate IsForm(u: Unquotes, s: string, i: nat, f: Form, j: nat)
    decreases f
  {
    && i < j <= |s|
    && match f
       case Wildcard => (s[i] == '_' || s[i] == '*') && j == i + 1
       case Text => IsText(u, s, i, j)
       case Field(value) => IsIdentStart(s[i]) && s[i] != '_' && HasColon(s, i, value.start) && IsTree(u, s, value) && value.stop == j
       case Branches(items) =>
         s[i] == '[' && items != [] && s[j - 1] == ']' && AllDirect(items) && IsRow(u, s, i + 1, items, j - 1)
       case Members(items) =>
         s[i] == '(' && items != [] && s[j - 1] == ')' && OpensGroup(s, i + 1) && NoneNegated(items) && IsRow(u, s, i + 1, items, j - 1)
       case Node(root, head, items) =>
         && s[i] == '(' && IsRoot(u, s, SpaceFrom(s, i + 1, |s|), root) && IsHead(s, root, head)
         && s[j - 1] == ')' && IsRow(u, s, head, items, j - 1)
       case Test(arguments) =>
         && s[i] == '(' && s[j - 1] == ')'
         && var mark := SpaceFrom(s, i + 1, |s|);
            && mark + 1 < |s| && (s[mark] == '#' || s[mark] == '.') && IsIdentStart(s[mark + 1])
            && AreArguments(u, s, IdentFrom(s, mark + 1, |s|), arguments, j - 1)
  }

  /** A colon behind the name at `i`, and a value behind the colon. */
  predicate HasColon(s: string, i: nat, value: nat)
    requires i < |s|
  {
    var colon := SpaceFrom(s, IdentFrom(s, i, |s|), |s|);
    colon < |s| && s[colon] == ':' && value == SpaceFrom(s, colon + 1, |s|)
  }

  predicate OpensGroup(s: string, i: nat)
    requires i <= |s|
  {
    var at := SpaceFrom(s, i, |s|);
    at < |s| && (s[at] == '(' || s[at] == '[')
  }

  /** The type of a node from `i` to `root`: a literal, a wildcard, or a name, which may be
  `MISSING` with the name or literal that is missing. */
  predicate IsRoot(u: Unquotes, s: string, i: nat, root: nat) {
    && i < |s|
    && if s[i] == '_' || s[i] == '*' then root == i + 1
       else if s[i] == '\"' then IsText(u, s, i, root)
       else IsIdentStart(s[i]) && var end := IdentFrom(s, i, |s|); if s[i..end] == "MISSING" then IsMissing(u, s, end, root) else root == end
  }

  predicate IsMissing(u: Unquotes, s: string, i: nat, root: nat)
    requires i <= |s|
  {
    var at := SpaceFrom(s, i, |s|);
    if at < |s| && s[at] == '\"' then IsText(u, s, at, root)
    else if at < |s| && IsIdentStart(s[at]) then IsName(s, at, root)
    else root == i
  }

  /** A slash and the name of a subtype, or nothing. */
  predicate IsHead(s: string, root: nat, head: nat) {
    && root <= |s|
    && var at := SpaceFrom(s, root, |s|);
       if at < |s| && s[at] == '/' then IsName(s, at + 1, head) else head == root
  }

  predicate AreArguments(u: Unquotes, s: string, i: nat, arguments: seq<nat>, close: nat)
    decreases arguments
  {
    && i <= |s|
    && var at := SpaceFrom(s, i, |s|);
       if arguments == [] then at == close else IsArgument(u, s, at, arguments[0]) && AreArguments(u, s, arguments[0], arguments[1..], close)
  }

  predicate IsArgument(u: Unquotes, s: string, i: nat, end: nat) {
    i < |s| && if s[i] == '@' then IsName(s, i + 1, end) else if s[i] == '\"' then IsText(u, s, i, end) else IsName(s, i, end)
  }

  function Behind(item: Item): nat { if item.Negated? then item.end else item.tree.stop }

  /** Items one after the other, only blanks between them, up to `close`. */
  predicate IsRow(u: Unquotes, s: string, i: nat, items: seq<Item>, close: nat)
    decreases items
  {
    && i <= |s|
    && var at := SpaceFrom(s, i, |s|);
       if items == [] then at == close else IsItem(u, s, at, items[0]) && IsRow(u, s, Behind(items[0]), items[1..], close)
  }

  predicate IsItem(u: Unquotes, s: string, at: nat, item: Item)
    decreases item
  {
    && at < |s|
    && match item
       case Direct(tree) => tree.start == at && IsTree(u, s, tree)
       case Anchored(tree) => s[at] == '.' && tree.start == SpaceFrom(s, at + 1, |s|) && IsTree(u, s, tree)
       case Negated(name, end) => s[at] == '!' && name == SpaceFrom(s, at + 1, |s|) && IsName(s, name, end)
  }

  /** A query is a row of patterns. */
  predicate IsQuery(u: Unquotes, s: string, items: seq<Item>) { IsRow(u, s, 0, items, |s|) && AllDirect(items) }

  // ---------------------------------------------------------------- what is accepted has a tree

  lemma {:induction false} SuffixSound(s: string, i: nat) returns (marks: seq<nat>)
    requires i <= |s| && V.Suffix(s, i).Good?
    ensures IsSuffix(s, i, marks, V.Suffix(s, i).pos)
    decreases |s| - i
  {
    var at := SpaceFrom(s, i, |s|);
    if at == |s| || !IsMark(s[at]) {
      marks := [];
    } else {
      var rest := SuffixSound(s, if s[at] == '@' then IdentFrom(s, at + 1, |s|) else at + 1);
      marks := [at] + rest;
    }
  }

  lemma {:induction false} PatternSound(u: Unquotes, s: string, i: nat) returns (t: Tree)
    requires i <= |s| && V.Pattern(u, s, i).Good?
    ensures SpaceFrom(s, i, |s|) == t.start < |s| && IsTree(u, s, t) && t.stop == V.Pattern(u, s, i).pos
    decreases |s| - i, 5
  {
    var start := SpaceFrom(s, i, |s|);
    var close := V.Atom(u, s, start).pos;
    var form := AtomSound(u, s, start);
    var marks := SuffixSound(s, close);
    t := Tree(start, form, close, marks, V.Suffix(s, close).pos);
  }

  lemma {:induction false} AtomSound(u: Unquotes, s: string, i: nat) returns (f: Form)
    requires i < |s| && V.Atom(u, s, i).Good?
    ensures IsForm(u, s, i, f, V.Atom(u, s, i).pos)
    decreases |s| - i, 4
  {
    var c := s[i];
    if c == '(' {
      f := ParenSound(u, s, i);
    } else if c == '[' {
      var items := AlternativesSound(u, s, i + 1, false);
      f := Branches(items);
    } else if c == '\"' {
      f := Text;
    } else if c == '_' || c == '*' {
      f := Wildcard;
    } else {
      var value := ValueSound(u, s, SpaceFrom(s, IdentFrom(s, i, |s|), |s|));
      f := Field(value);
    }
  }

  lemma {:induction false} ValueSound(u: Unquotes, s: string, colon: nat) returns (t: Tree)
    requires colon < |s| && V.Value(u, s, colon).Good?
    ensures t.start == SpaceFrom(s, colon + 1, |s|) && IsTree(u, s, t) && t.stop == V.Value(u, s, colon).pos
    decreases |s| - colon, 6
  {
    t := PatternSound(u, s, SpaceFrom(s, colon + 1, |s|));
    SpaceTwice(s, colon + 1);
  }

  lemma {:induction false} SpaceTwice(s: string, i: nat)
    requires i <= |s|
    ensures SpaceFrom(s, SpaceFrom(s, i, |s|), |s|) == SpaceFrom(s, i, |s|)
  {
  }

  lemma {:induction false} ParenSound(u: Unquotes, s: string, open: nat) returns (f: Form)
    requires open < |s| && s[open] == '(' && V.Paren(u, s, open).Good?
    ensures IsForm(u, s, open, f, V.Paren(u, s, open).pos)
    decreases |s| - open, 3
  {
    var i := SpaceFrom(s, open + 1, |s|);
    if s[i] == '#' || s[i] == '.' {
      f := TestSound(u, s, open, i);
    } else if s[i] == '(' || s[i] == '[' {
      var items := GroupSound(u, s, i, false);
      RowFrom(u, s, open + 1, items, V.Paren(u, s, open).pos - 1);
      f := Members(items);
    } else {
      f := NodeSound(u, s, open, i);
    }
  }

  lemma {:induction false} TestSound(u: Unquotes, s: string, open: nat, i: nat) returns (f: Form)
    requires open < |s| && s[open] == '(' && i == SpaceFrom(s, open + 1, |s|) < |s| && (s[i] == '#' || s[i] == '.')
    requires V.Paren(u, s, open).Good?
    ensures IsForm(u, s, open, f, V.Paren(u, s, open).pos)
  {
    assert V.Predicate(u, s, i) == V.Paren(u, s, open);
    var arguments := ArgumentsSound(u, s, IdentFrom(s, i + 1, |s|));
    f := Test(arguments);
  }

  lemma {:induction false} NodeSound(u: Unquotes, s: string, open: nat, i: nat) returns (f: Form)
    requires open < |s| && s[open] == '(' && i == SpaceFrom(s, open + 1, |s|) < |s| && s[i] !in ['#', '.', '(', '[', ')']
    requires V.Paren(u, s, open).Good?
    ensures IsForm(u, s, open, f, V.Paren(u, s, open).pos)
    decreases |s| - open, 2
  {
    assert V.Node(u, s, i) == V.Paren(u, s, open);
    RootIff(u, s, i, V.Root(u, s, i).pos);
    HeadIff(u, s, i, V.Root(u, s, i).pos, V.Head(u, s, i).pos);
    var items := ChildrenSound(u, s, V.Head(u, s, i).pos);
    f := Node(V.Root(u, s, i).pos, V.Head(u, s, i).pos, items);
  }

  /** A row is the same from the blanks before it. */
  lemma {:induction false} RowFrom(u: Unquotes, s: string, i: nat, items: seq<Item>, close: nat)
    requires i <= |s|
    ensures IsRow(u, s, SpaceFrom(s, i, |s|), items, close) <==> IsRow(u, s, i, items, close)
  {
    SpaceTwice(s, i);
  }

  lemma {:induction false} TextIff(u: Unquotes, s: string, i: nat, j: nat)
    requires i <= |s|
    ensures V.Quoted(u, s, i) == V.Good(j) <==> IsText(u, s, i, j)
  {
  }

  lemma {:induction false} RootIff(u: Unquotes, s: string, i: nat, root: nat)
    requires i < |s|
    ensures V.Root(u, s, i) == V.Good(root) <==> IsRoot(u, s, i, root)
  {
    hide V.Quoted, IsText;
    TextIff(u, s, i, root);
    if IsIdentStart(s[i]) {
      TextIff(u, s, SpaceFrom(s, IdentFrom(s, i, |s|), |s|), root);
    }
  }

  lemma {:induction false} HeadIff(u: Unquotes, s: string, i: nat, root: nat, head: nat)
    requires i < |s| && V.Root(u, s, i) == V.Good(root)
    ensures V.Head(u, s, i) == V.Good(head) <==> IsHead(s, root, head)
  {
    hide V.Root;
  }

  lemma {:induction false} ArgumentIff(u: Unquotes, s: string, at: nat, end: nat)
    requires at < |s|
    ensures V.Argument(u, s, at) == V.Good(end) <==> IsArgument(u, s, at, end)
  {
    hide V.Quoted, IsText;
    TextIff(u, s, at, end);
  }

  lemma {:induction false} ArgumentsSound(u: Unquotes, s: string, i: nat) returns (arguments: seq<nat>)
    requires i <= |s| && V.Arguments(u, s, i).Good?
    ensures var m := V.Arguments(u, s, i).pos; s[m - 1] == ')' && AreArguments(u, s, i, arguments, m - 1)
    decreases |s| - i
  {
    hide V.Argument, IsArgument;
    var at := SpaceFrom(s, i, |s|);
    if s[at] == ')' {
      arguments := [];
    } else {
      var end := V.Argument(u, s, at).pos;
      ArgumentIff(u, s, at, end);
      var rest := ArgumentsSound(u, s, end);
      arguments := [end] + rest;
    }
  }

  lemma {:induction false} AlternativesSound(u: Unquotes, s: string, i: nat, any: bool) returns (items: seq<Item>)
    requires i <= |s| && V.Alternatives(u, s, i, any).Good?
    ensures var m := V.Alternatives(u, s, i, any).pos; s[m - 1] == ']' && IsRow(u, s, i, items, m - 1)
    ensures AllDirect(items) && (any || items != [])
    decreases |s| - i, 6
  {
    hide V.Pattern, IsTree;
    var at := SpaceFrom(s, i, |s|);
    if s[at] == ']' {
      items := [];
    } else {
      var t := PatternSound(u, s, at);
      SpaceTwice(s, i);
      var rest := AlternativesSound(u, s, t.stop, true);
      items := [Direct(t)] + rest;
    }
  }

  lemma {:induction false} AnchoredSound(u: Unquotes, s: string, at: nat) returns (item: Item)
    requires at < |s| && s[at] == '.' && V.Anchored(u, s, at).Good?
    ensures item.Anchored? && IsItem(u, s, at, item) && Behind(item) == V.Anchored(u, s, at).pos
    decreases |s| - at, 0
  {
    var t := PatternSound(u, s, SpaceFrom(s, at + 1, |s|));
    SpaceTwice(s, at + 1);
    item := Anchored(t);
  }

  lemma {:induction false} GroupSound(u: Unquotes, s: string, i: nat, any: bool) returns (items: seq<Item>)
    requires i <= |s| && V.Group(u, s, i, any).Good?
    ensures var m := V.Group(u, s, i, any).pos; s[m - 1] == ')' && IsRow(u, s, i, items, m - 1)
    ensures NoneNegated(items) && (any || items != [])
    decreases |s| - i, 6
  {
    hide V.Pattern, V.Anchored, IsTree;
    var at := SpaceFrom(s, i, |s|);
    SpaceTwice(s, i);
    if s[at] == ')' {
      items := [];
    } else {
      var item;
      if s[at] == '.' {
        item := AnchoredSound(u, s, at);
      } else {
        var t := PatternSound(u, s, at);
        item := Direct(t);
      }
      var rest := GroupSound(u, s, Behind(item), true);
      items := [item] + rest;
    }
  }

  lemma {:induction false} ChildrenSound(u: Unquotes, s: string, i: nat) returns (items: seq<Item>)
    requires i <= |s| && V.Children(u, s, i).Good?
    ensures var m := V.Children(u, s, i).pos; s[m - 1] == ')' && IsRow(u, s, i, items, m - 1)
    decreases |s| - i, 8
  {
    var at := SpaceFrom(s, i, |s|);
    if s[at] == ')' {
      items := [];
    } else {
      var item := ChildSound(u, s, at);
      var rest := ChildrenSound(u, s, Behind(item));
      items := [item] + rest;
    }
  }

  lemma {:induction false} ChildSound(u: Unquotes, s: string, at: nat) returns (item: Item)
    requires at < |s| && !IsSpace(s[at]) && s[at] != ';' && V.Child(u, s, at).Good?
    ensures IsItem(u, s, at, item) && Behind(item) == V.Child(u, s, at).pos
    decreases |s| - at, 7
  {
    var c := s[at];
    if c == '!' {
      item := Negated(SpaceFrom(s, at + 1, |s|), V.Child(u, s, at).pos);
    } else if c == '.' {
      item := AnchoredSound(u, s, at);
    } else if c == '(' || c == '[' || c == '\"' || c == '_' || c == '*' {
      var t := PatternSound(u, s, at);
      item := Direct(t);
    } else {
      var value := ValueSound(u, s, SpaceFrom(s, IdentFrom(s, at, |s|), |s|));
      SuffixSettled(s, value.close, value.marks, value.stop);
      item := Direct(Tree(at, Field(value), value.stop, [], value.stop));
    }
  }

  /** Behind a suffix no other follows. */
  lemma {:induction false} SuffixSettled(s: string, i: nat, marks: seq<nat>, stop: nat)
    requires IsSuffix(s, i, marks, stop)
    ensures stop <= |s| && IsSuffix(s, stop, [], stop)
    decreases marks
  {
    var at := SpaceFrom(s, i, |s|);
    if at < |s| && IsMark(s[at]) {
      SuffixSettled(s, if s[at] == '@' then IdentFrom(s, at + 1, |s|) else at + 1, marks[1..], stop);
    } else {
      SpaceTwice(s, i);
    }
  }

  lemma {:induction false} QuerySound(u: Unquotes, s: string, i: nat) returns (items: seq<Item>)
    requires i <= |s| && V.Query(u, s, i).Good?
    ensures IsRow(u, s, i, items, |s|) && AllDirect(items)
    decreases |s| - i
  {
    var at := SpaceFrom(s, i, |s|);
    if at == |s| {
      items := [];
    } else {
      var t := PatternSound(u, s, at);
      SpaceTwice(s, i);
      var rest := QuerySound(u, s, t.stop);
      items := [Direct(t)] + rest;
    }
  }

  // ---------------------------------------------------------------- what has a tree is accepted

  lemma {:induction false} SuffixComplete(s: string, i: nat, marks: seq<nat>, stop: nat)
    requires IsSuffix(s, i, marks, stop)
    ensures V.Suffix(s, i) == V.Good(stop)
    decreases marks
  {
    var at := SpaceFrom(s, i, |s|);
    if at < |s| && IsMark(s[at]) {
      SuffixComplete(s, if s[at] == '@' then IdentFrom(s, at + 1, |s|) else at + 1, marks[1..], stop);
    }
  }

  /** How a tree's text begins. */
  lemma {:induction false} FormBegins(u: Unquotes, s: string, i: nat, f: Form, j: nat)
    requires IsForm(u, s, i, f, j)
    ensures s[i] in ['(', '[', '\"', '_', '*'] || (IsIdentStart(s[i]) && f.Field?)
    ensures SpaceFrom(s, i, |s|) == i
  {
  }

  lemma {:induction false} DirectItem(u: Unquotes, s: string, at: nat, item: Item)
    requires item.Direct? && IsItem(u, s, at, item)
    ensures item.tree.start == at < |s| && IsTree(u, s, item.tree) && item.tree < item
    ensures SpaceFrom(s, at, |s|) == at && (s[at] in ['(', '[', '\"', '_', '*'] || (IsIdentStart(s[at]) && item.tree.form.Field?))
  {
    FormBegins(u, s, item.tree.start, item.tree.form, item.tree.close);
  }

  lemma {:induction false} TreeComplete(u: Unquotes, s: string, i: nat, t: Tree)
    requires i <= |s| && IsTree(u, s, t) && t.start == SpaceFrom(s, i, |s|)
    ensures V.Pattern(u, s, i) == V.Good(t.stop)
    decreases t, 0
  {
    FormComplete(u, s, t.start, t.form, t.close);
    SuffixComplete(s, t.close, t.marks, t.stop);
  }

  lemma {:induction false} FormComplete(u: Unquotes, s: string, i: nat, f: Form, j: nat)
    requires IsForm(u, s, i, f, j)
    ensures V.Atom(u, s, i) == V.Good(j)
    decreases f
  {
    match f
    case Wildcard =>
    case Text =>
    case Field(value) => ValueComplete(u, s, SpaceFrom(s, IdentFrom(s, i, |s|), |s|), value);
    case Branches(items) => AlternativesComplete(u, s, i + 1, items, j - 1, false);
    case Members(items) => MembersComplete(u, s, i, items, j);
    case Node(_, _, _) => NodeComplete(u, s, i, f, j);
    case Test(_) => TestComplete(u, s, i, f, j);
  }

  lemma {:induction false} ValueComplete(u: Unquotes, s: string, colon: nat, t: Tree)
    requires colon < |s| && IsTree(u, s, t) && t.start == SpaceFrom(s, colon + 1, |s|)
    ensures V.Value(u, s, colon) == V.Good(t.stop)
    decreases t, 1
  {
    FormBegins(u, s, t.start, t.form, t.close);
    TreeComplete(u, s, t.start, t);
  }

  lemma {:induction false} AlternativesComplete(u: Unquotes, s: string, i: nat, items: seq<Item>, close: nat, any: bool)
    requires close < |s| && s[close] == ']' && IsRow(u, s, i, items, close) && AllDirect(items) && (any || items != [])
    ensures V.Alternatives(u, s, i, any) == V.Good(close + 1)
    decreases items
  {
    if items != [] {
      DirectItem(u, s, SpaceFrom(s, i, |s|), items[0]);
      TreeComplete(u, s, SpaceFrom(s, i, |s|), items[0].tree);
      AlternativesComplete(u, s, items[0].tree.stop, items[1..], close, true);
    }
  }

  lemma {:induction false} AnchoredComplete(u: Unquotes, s: string, at: nat, item: Item)
    requires item.Anchored? && IsItem(u, s, at, item)
    ensures V.Anchored(u, s, at) == V.Good(Behind(item))
    decreases item, 0
  {
    var t := item.tree;
    FormBegins(u, s, t.start, t.form, t.close);
    TreeComplete(u, s, t.start, t);
  }

  lemma {:induction false} GroupComplete(u: Unquotes, s: string, i: nat, items: seq<Item>, close: nat, any: bool)
    requires close < |s| && s[close] == ')' && IsRow(u, s, i, items, close) && NoneNegated(items) && (any || items != [])
    ensures V.Group(u, s, i, any) == V.Good(close + 1)
    decreases items, 0
  {
    if items != [] {
      var at := SpaceFrom(s, i, |s|);
      assert !items[0].Negated?;
      if items[0].Anchored? {
        AnchoredComplete(u, s, at, items[0]);
      } else {
        DirectItem(u, s, at, items[0]);
        TreeComplete(u, s, at, items[0].tree);
      }
      GroupComplete(u, s, Behind(items[0]), items[1..], close, true);
    }
  }

  lemma {:induction false} MembersComplete(u: Unquotes, s: string, open: nat, items: seq<Item>, j: nat)
    requires IsForm(u, s, open, Members(items), j)
    ensures V.Atom(u, s, open) == V.Good(j)
    decreases items, 1
  {
    var i := SpaceFrom(s, open + 1, |s|);
    RowFrom(u, s, open + 1, items, j - 1);
    GroupComplete(u, s, i, items, j - 1, false);
    assert V.Paren(u, s, open) == V.Group(u, s, i, false);
  }

  lemma {:induction false} TestComplete(u: Unquotes, s: string, open: nat, f: Form, j: nat)
    requires f.Test? && IsForm(u, s, open, f, j)
    ensures V.Atom(u, s, open) == V.Good(j)
  {
    hide AreArguments, V.Arguments;
    var i := SpaceFrom(s, open + 1, |s|);
    ArgumentsComplete(u, s, IdentFrom(s, i + 1, |s|), f.arguments, j - 1);
    assert V.Predicate(u, s, i) == V.Good(j);
  }

  lemma {:induction false} ArgumentBegins(u: Unquotes, s: string, at: nat, end: nat)
    requires IsArgument(u, s, at, end)
    ensures at < |s| && s[at] != ')'
  {
  }

  lemma {:induction false} ArgumentsComplete(u: Unquotes, s: string, i: nat, arguments: seq<nat>, close: nat)
    requires close < |s| && s[close] == ')' && AreArguments(u, s, i, arguments, close)
    ensures V.Arguments(u, s, i) == V.Good(close + 1)
    decreases arguments
  {
    hide V.Argument, IsArgument;
    if arguments != [] {
      var at := SpaceFrom(s, i, |s|);
      ArgumentBegins(u, s, at, arguments[0]);
      ArgumentIff(u, s, at, arguments[0]);
      ArgumentsComplete(u, s, arguments[0], arguments[1..], close);
    }
  }

  lemma {:induction false} RootComplete(u: Unquotes, s: string, i: nat, root: nat, head: nat)
    requires IsRoot(u, s, i, root) && IsHead(s, root, head)
    ensures V.Head(u, s, i) == V.Good(head) && s[i] !in ['#', '.', '(', '[', ')']
  {
    hide V.Root, V.Head, IsHead;
    RootIff(u, s, i, root);
    HeadIff(u, s, i, root, head);
  }

  lemma {:induction false} NodeComplete(u: Unquotes, s: string, open: nat, f: Form, j: nat)
    requires f.Node? && IsForm(u, s, open, f, j)
    ensures V.Atom(u, s, open) == V.Good(j)
    decreases f, 0
  {
    var i := SpaceFrom(s, open + 1, |s|);
    RootComplete(u, s, i, f.root, f.head);
    ChildrenComplete(u, s, f.head, f.items, j - 1);
    assert V.Node(u, s, i) == V.Good(j);
  }

  lemma {:induction false} ChildrenComplete(u: Unquotes, s: string, i: nat, items: seq<Item>, close: nat)
    requires close < |s| && s[close] == ')' && IsRow(u, s, i, items, close)
    ensures V.Children(u, s, i) == V.Good(close + 1)
    decreases items
  {
    if items != [] {
      var at := SpaceFrom(s, i, |s|);
      ChildComplete(u, s, at, items[0]);
      ChildrenComplete(u, s, Behind(items[0]), items[1..], close);
    }
  }

  lemma {:induction false} ChildComplete(u: Unquotes, s: string, at: nat, item: Item)
    requires IsItem(u, s, at, item)
    ensures V.Child(u, s, at) == V.Good(Behind(item)) && s[at] != ')'
    decreases item, 1
  {
    match item
    case Negated(_, _) =>
    case Anchored(_) => AnchoredComplete(u, s, at, item);
    case Direct(t) =>
      DirectItem(u, s, at, item);
      if t.form.Field? {
        var value := t.form.value;
        ValueComplete(u, s, SpaceFrom(s, IdentFrom(s, at, |s|), |s|), value);
        SuffixSettled(s, value.close, value.marks, value.stop);
      } else {
        TreeComplete(u, s, at, t);
      }
  }

  lemma {:induction false} QueryComplete(u: Unquotes, s: string, i: nat, items: seq<Item>)
    requires IsRow(u, s, i, items, |s|) && AllDirect(items)
    ensures V.Query(u, s, i) == V.Good(|s|)
    decreases items
  {
    if items != [] {
      DirectItem(u, s, SpaceFrom(s, i, |s|), items[0]);
      TreeComplete(u, s, SpaceFrom(s, i, |s|), items[0].tree);
      QueryComplete(u, s, items[0].tree.stop, items[1..]);
    }
  }

  /** The validator accepts a text exactly when it is a query. */
  lemma {:induction false} AcceptedIffQuery(u: Unquotes, s: string)
    ensures V.Query(u, s, 0) == V.Good(|s|) <==> exists items :: IsQuery(u, s, items)
  {
    if V.Query(u, s, 0).Good? {
      var items := QuerySound(u, s, 0);
      assert IsQuery(u, s, items);
    }
    forall items | IsQuery(u, s, items)
      ensures V.Query(u, s, 0) == V.Good(|s|)
    {
      QueryComplete(u, s, 0, items);
    }
  }
}
