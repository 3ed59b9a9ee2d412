/** The structural validator of the fallback query front end, a recursive-descent parser,
and its agreement with the scanners that only count delimiters.

`unquotes` stands for `strconv.Unquote` succeeding; nothing is assumed of it. */
module QueryValidator {
  import opened Values
  import opened QueryText

  /** The position behind what was read, or where the syntax error is. */
  datatype Parsed = Good(pos: nat) | Bad(at: nat)

  predicate Decodes(unquotes: string -> bool, v: string) {
    |v| >= 2 && v[0] == '\"' && v[|v| - 1] == '\"' && unquotes(v)
  }

  /** What every reader promises: progress within the text, errors within the text. */
  predicate Within(r: Parsed, s: string, i: nat) {
    match r
    case Good(pos) => i < pos <= |s|
    case Bad(at) => at <= |s|
  }

  // ---------------------------------------------------------------- grammar

  function Quoted(unquotes: string -> bool, s: string, i: nat): (r: Parsed)
    requires i <= |s|
    ensures Within(r, s, i)
  {
    if i == |s| || s[i] != '\"' then Bad(i)
    else
      var next := QuotedFrom(s, i + 1, false);
      if next == |s| && s[|s| - 1] != '\"' then Bad(i)
      else if !Decodes(unquotes, s[i..next]) then Bad(i)
      else Good(next)
  }

  /** `at`, then an identifier right behind the byte there. */
  function Marked(s: string, i: nat, at: nat): (r: Parsed)
    requires i < |s| && at <= |s|
    ensures Within(r, s, i)
  {
    if i + 1 == |s| || !IsIdentStart(s[i + 1]) then Bad(at) else Good(IdentFrom(s, i + 1, |s|))
  }

  function Pattern(unquotes: string -> bool, s: string, i: nat): (r: Parsed)
    requires i <= |s|
    ensures Within(r, s, i)
    decreases |s| - i, 5
  {
    var start := SpaceFrom(s, i, |s|);
    if start == |s| then Bad(start)
    else
      match Atom(unquotes, s, start)
      case Bad(at) => Bad(at)
      case Good(pos) => Suffix(s, pos)
  }

  function Atom(unquotes: string -> bool, s: string, start: nat): (r: Parsed)
    requires start < |s|
    ensures Within(r, s, start)
    decreases |s| - start, 4
  {
    var c := s[start];
    if c == '(' then Paren(unquotes, s, start)
    else if c == '[' then Alternatives(unquotes, s, start + 1, false)
    else if c == '\"' then Quoted(unquotes, s, start)
    else if c == '_' || c == '*' then Good(start + 1)
    else if !IsIdentStart(c) then Bad(start)
    else
      var colon := SpaceFrom(s, IdentFrom(s, start, |s|), |s|);
      if colon == |s| || s[colon] != ':' then Bad(start) else Value(unquotes, s, colon)
  }

  /** A field's pattern, behind the colon. */
  function Value(unquotes: string -> bool, s: string, colon: nat): (r: Parsed)
    requires colon < |s|
    ensures Within(r, s, colon)
    decreases |s| - colon, 6
  {
    var value := SpaceFrom(s, colon + 1, |s|);
    if value == |s| || s[value] == ')' || s[value] == ']' then Bad(value) else Pattern(unquotes, s, value)
  }

  function Suffix(s: string, i: nat): (r: Parsed)
    requires i <= |s|
    ensures r.Good? ==> i <= r.pos <= |s|
    ensures r.Bad? ==> r.at <= |s|
    decreases |s| - i
  {
    var at := SpaceFrom(s, i, |s|);
    if at == |s| then Good(at)
    else if IsQuantifier(s[at]) then Suffix(s, at + 1)
    else if s[at] == '@' then
      match Marked(s, at, at)
      case Bad(e) => Bad(e)
      case Good(pos) => Suffix(s, pos)
    else Good(at)
  }

  function Paren(unquotes: string -> bool, s: string, open: nat): (r: Parsed)
    requires open < |s|
    ensures Within(r, s, open)
    decreases |s| - open, 3
  {
    var i := SpaceFrom(s, open + 1, |s|);
    if i == |s| || s[i] == ')' then Bad(i)
    else if s[i] == '#' || s[i] == '.' then Predicate(unquotes, s, i)
    else if s[i] == '(' || s[i] == '[' then Group(unquotes, s, i, false)
    else Node(unquotes, s, i)
  }

  function Predicate(unquotes: string -> bool, s: string, i: nat): (r: Parsed)
    requires i < |s|
    ensures Within(r, s, i)
  {
    match Marked(s, i, i + 1)
    case Bad(at) => Bad(at)
    case Good(pos) => Arguments(unquotes, s, pos)
  }

  function Node(unquotes: string -> bool, s: string, i: nat): (r: Parsed)
    requires i < |s|
    ensures Within(r, s, i)
    decreases |s| - i, 9
  {
    match Head(unquotes, s, i)
    case Bad(at) => Bad(at)
    case Good(pos) => Children(unquotes, s, pos)
  }

  /** The elements of a group up to its closing parenthesis. */
  function Group(unquotes: string -> bool, s: string, i: nat, any: bool): (r: Parsed)
    requires i <= |s|
    ensures Within(r, s, i)
    decreases |s| - i, 6
  {
    var at := SpaceFrom(s, i, |s|);
    if at == |s| then Bad(at)
    else if s[at] == ')' then if any then Good(at + 1) else Bad(at)
    else
      match if s[at] == '.' then Anchored(unquotes, s, at) else Pattern(unquotes, s, at)
      case Bad(e) => Bad(e)
      case Good(pos) => Group(unquotes, s, pos, true)
  }

  /** A sibling anchor and the pattern it must precede. */
  function Anchored(unquotes: string -> bool, s: string, at: nat): (r: Parsed)
    requires at < |s|
    ensures Within(r, s, at)
    decreases |s| - at, 0
  {
    var child := SpaceFrom(s, at + 1, |s|);
    if child == |s| || s[child] == ')' then Bad(child) else Pattern(unquotes, s, child)
  }

  /** The root of a node expression, with `MISSING`'s argument and a supertype's subtype. */
  function Head(unquotes: string -> bool, s: string, i: nat): (r: Parsed)
    requires i < |s|
    ensures Within(r, s, i)
  {
    match Root(unquotes, s, i)
    case Bad(at) => Bad(at)
    case Good(pos) =>
      var slash := SpaceFrom(s, pos, |s|);
      if slash < |s| && s[slash] == '/' then Marked(s, slash, slash) else Good(pos)
  }

  function Root(unquotes: string -> bool, s: string, i: nat): (r: Parsed)
    requires i < |s|
    ensures Within(r, s, i)
  {
    if s[i] == '\"' then Quoted(unquotes, s, i)
    else if s[i] == '_' || s[i] == '*' then Good(i + 1)
    else if !IsIdentStart(s[i]) then Bad(i)
    else
      var end := IdentFrom(s, i, |s|);
      if s[i..end] != "MISSING" then Good(end)
      else
        var arg := SpaceFrom(s, end, |s|);
        if arg < |s| && s[arg] == '\"' then Quoted(unquotes, s, arg)
        else if arg < |s| && IsIdentStart(s[arg]) then Good(IdentFrom(s, arg, |s|))
        else Good(end)
  }

  /** The children of a node expression up to its closing parenthesis. */
  function Children(unquotes: string -> bool, s: string, i: nat): (r: Parsed)
    requires i <= |s|
    ensures Within(r, s, i)
    decreases |s| - i, 8
  {
    var at := SpaceFrom(s, i, |s|);
    if at == |s| then Bad(at)
    else if s[at] == ')' then Good(at + 1)
    else
      match Child(unquotes, s, at)
      case Bad(e) => Bad(e)
      case Good(pos) => Children(unquotes, s, pos)
  }

  function Child(unquotes: string -> bool, s: string, at: nat): (r: Parsed)
    requires at < |s|
    ensures Within(r, s, at)
    decreases |s| - at, 7
  {
    var c := s[at];
    if c == '!' then
      var name := SpaceFrom(s, at + 1, |s|);
      if name == |s| || !IsIdentStart(s[name]) then Bad(name) else Good(IdentFrom(s, name, |s|))
    else if c == '.' then Anchored(unquotes, s, at)
    else if c == '(' || c == '[' || c == '\"' || c == '_' || c == '*' then Pattern(unquotes, s, at)
    else if !IsIdentStart(c) then Bad(at)
    else
      var colon := SpaceFrom(s, IdentFrom(s, at, |s|), |s|);
      if colon == |s| || s[colon] != ':' then Bad(at) else Value(unquotes, s, colon)
  }

  /** The branches of an alternation up to its closing bracket. */
  function Alternatives(unquotes: string -> bool, s: string, i: nat, any: bool): (r: Parsed)
    requires i <= |s|
    ensures Within(r, s, i)
    decreases |s| - i, 6
  {
    var at := SpaceFrom(s, i, |s|);
    if at == |s| then Bad(at)
    else if s[at] == ']' then if any then Good(at + 1) else Bad(at)
    else if s[at] == ')' then Bad(at)
    else
      match Pattern(unquotes, s, at)
      case Bad(e) => Bad(e)
      case Good(pos) => Alternatives(unquotes, s, pos, true)
  }

  /** The arguments of a predicate up to its closing parenthesis. */
  function Arguments(unquotes: string -> bool, s: string, i: nat): (r: Parsed)
    requires i <= |s|
    ensures Within(r, s, i)
    decreases |s| - i
  {
    var at := SpaceFrom(s, i, |s|);
    if at == |s| then Bad(at)
    else if s[at] == ')' then Good(at + 1)
    else
      match Argument(unquotes, s, at)
      case Bad(e) => Bad(e)
      case Good(pos) => Arguments(unquotes, s, pos)
  }

  function Argument(unquotes: string -> bool, s: string, at: nat): (r: Parsed)
    requires at < |s|
    ensures Within(r, s, at)
  {
    if s[at] == '@' then Marked(s, at, at)
    else if s[at] == '"' then Quoted(unquotes, s, at)
    else if !IsIdentStart(s[at]) then Bad(at)
    else Good(IdentFrom(s, at, |s|))
  }

  /** A whole query: patterns to the end of the text. */
  function Query(unquotes: string -> bool, s: string, i: nat): (r: Parsed)
    requires i <= |s|
    ensures r.Good? ==> r.pos == |s|
    ensures r.Bad? ==> r.at <= |s|
    decreases |s| - i
  {
    var at := SpaceFrom(s, i, |s|);
    if at == |s| then Good(at)
    else
      match Pattern(unquotes, s, at)
      case Bad(e) => Bad(e)
      case Good(pos) => Query(unquotes, s, pos)
  }

  // ---------------------------------------------------------------- what is accepted is balanced

  lemma {:induction false} NeutralMarked(s: string, i: nat, at: nat)
    requires i < |s| && at <= |s| && s[i] !in ['\"', ';', '(', ')', '[', ']'] && Marked(s, i, at).Good?
    ensures Neutral(s, i, Marked(s, i, at).pos)
  {
    NeutralByte(s, i);
    NeutralIdent(s, i + 1);
    NeutralChain(s, i, i + 1, IdentFrom(s, i + 1, |s|));
  }

  /** Blanks, then something neutral. */
  lemma {:induction false} NeutralAfterSpace(s: string, i: nat, j: nat)
    requires i <= |s| && Neutral(s, SpaceFrom(s, i, |s|), j)
    ensures Neutral(s, i, j)
  {
    NeutralSpace(s, i);
    NeutralChain(s, i, SpaceFrom(s, i, |s|), j);
  }

  lemma {:induction false} NeutralSuffix(s: string, i: nat)
    requires i <= |s|
    ensures Suffix(s, i).Good? ==> Neutral(s, i, Suffix(s, i).pos)
    decreases |s| - i
  {
    var at := SpaceFrom(s, i, |s|);
    if Suffix(s, i).Good? {
      NeutralSpace(s, i);
      if at < |s| && IsQuantifier(s[at]) {
        NeutralByte(s, at);
        NeutralSuffix(s, at + 1);
        NeutralChain(s, at, at + 1, Suffix(s, i).pos);
        NeutralChain(s, i, at, Suffix(s, i).pos);
      } else if at < |s| && s[at] == '@' {
        var pos := Marked(s, at, at).pos;
        NeutralMarked(s, at, at);
        NeutralSuffix(s, pos);
        NeutralChain(s, at, pos, Suffix(s, i).pos);
        NeutralChain(s, i, at, Suffix(s, i).pos);
      }
    }
  }

  lemma {:induction false} NeutralPattern(unquotes: string -> bool, s: string, i: nat)
    requires i <= |s|
    ensures Pattern(unquotes, s, i).Good? ==> Neutral(s, i, Pattern(unquotes, s, i).pos)
    decreases |s| - i, 5
  {
    if Pattern(unquotes, s, i).Good? {
      var start, j := SpaceFrom(s, i, |s|), Pattern(unquotes, s, i).pos;
      var pos := Atom(unquotes, s, start).pos;
      NeutralAtom(unquotes, s, start);
      NeutralSuffix(s, pos);
      NeutralChain(s, start, pos, j);
      NeutralAfterSpace(s, i, j);
    }
  }

  lemma {:induction false} NeutralAtom(unquotes: string -> bool, s: string, start: nat)
    requires start < |s|
    ensures Atom(unquotes, s, start).Good? ==> Neutral(s, start, Atom(unquotes, s, start).pos)
    decreases |s| - start, 4
  {
    var c := s[start];
    if Atom(unquotes, s, start).Good? {
      var j := Atom(unquotes, s, start).pos;
      if c == '(' {
        NeutralParen(unquotes, s, start, j);
      } else if c == '[' {
        NeutralChoice(unquotes, s, start, j);
      } else if c == '\"' {
        NeutralString(s, start);
      } else if c == '_' || c == '*' {
        NeutralByte(s, start);
      } else {
        NeutralField(unquotes, s, start);
      }
    }
  }

  lemma {:induction false} NeutralParen(unquotes: string -> bool, s: string, start: nat, m: nat)
    requires start < |s| && s[start] == '(' && Paren(unquotes, s, start) == Good(m)
    ensures Neutral(s, start, m)
    decreases |s| - start, 3, 1
  {
    ParenCloses(unquotes, s, start);
    NeutralPair(s, start, m - 1);
  }

  lemma {:induction false} NeutralChoice(unquotes: string -> bool, s: string, start: nat, m: nat)
    requires start < |s| && s[start] == '[' && Alternatives(unquotes, s, start + 1, false) == Good(m)
    ensures Neutral(s, start, m)
    decreases |s| - start, 3
  {
    NeutralAlternatives(unquotes, s, start + 1, false);
    NeutralPair(s, start, m - 1);
  }

  lemma {:induction false} NeutralField(unquotes: string -> bool, s: string, at: nat)
    requires at < |s| && IsIdentStart(s[at])
    ensures var colon := SpaceFrom(s, IdentFrom(s, at, |s|), |s|);
      colon < |s| && s[colon] == ':' && Value(unquotes, s, colon).Good? ==> Neutral(s, at, Value(unquotes, s, colon).pos)
    decreases |s| - at, 3
  {
    var end := IdentFrom(s, at, |s|);
    var colon := SpaceFrom(s, end, |s|);
    if colon < |s| && s[colon] == ':' && Value(unquotes, s, colon).Good? {
      var value, j := SpaceFrom(s, colon + 1, |s|), Value(unquotes, s, colon).pos;
      NeutralPattern(unquotes, s, value);
      NeutralAfterSpace(s, colon + 1, j);
      NeutralByte(s, colon);
      NeutralChain(s, colon, colon + 1, j);
      NeutralAfterSpace(s, end, j);
      NeutralIdent(s, at);
      NeutralChain(s, at, end, j);
    }
  }

  /** Between the parentheses of an accepted expression the text is neutral. */
  lemma {:induction false} ParenCloses(unquotes: string -> bool, s: string, open: nat)
    requires open < |s|
    ensures Paren(unquotes, s, open).Good? ==>
              var m := Paren(unquotes, s, open).pos;
              open + 1 < m && s[m - 1] == ')' && Neutral(s, open + 1, m - 1)
    decreases |s| - open, 3, 0
  {
    if Paren(unquotes, s, open).Good? {
      ParenInside(unquotes, s, open);
      NeutralAfterSpace(s, open + 1, Paren(unquotes, s, open).pos - 1);
    }
  }

  lemma {:induction false} ParenInside(unquotes: string -> bool, s: string, open: nat)
    requires open < |s| && Paren(unquotes, s, open).Good?
    ensures var i, m := SpaceFrom(s, open + 1, |s|), Paren(unquotes, s, open).pos;
              i < m && s[m - 1] == ')' && Neutral(s, i, m - 1)
    decreases |s| - open, 2
  {
    var i := SpaceFrom(s, open + 1, |s|);
    if s[i] == '#' || s[i] == '.' {
      NeutralPredicate(unquotes, s, i);
    } else if s[i] == '(' || s[i] == '[' {
      NeutralGroup(unquotes, s, i, false);
    } else {
      NeutralNode(unquotes, s, i);
    }
  }

  lemma {:induction false} NeutralPredicate(unquotes: string -> bool, s: string, i: nat)
    requires i < |s| && (s[i] == '#' || s[i] == '.')
    ensures Predicate(unquotes, s, i).Good? ==>
              var m := Predicate(unquotes, s, i).pos;
              s[m - 1] == ')' && Neutral(s, i, m - 1)
  {
    if Predicate(unquotes, s, i).Good? {
      var pos := Marked(s, i, i + 1).pos;
      NeutralMarked(s, i, i + 1);
      NeutralArguments(unquotes, s, pos);
      NeutralChain(s, i, pos, Predicate(unquotes, s, i).pos - 1);
    }
  }

  lemma {:induction false} NeutralNode(unquotes: string -> bool, s: string, i: nat)
    requires i < |s|
    ensures Node(unquotes, s, i).Good? ==>
              var m := Node(unquotes, s, i).pos;
              s[m - 1] == ')' && Neutral(s, i, m - 1)
    decreases |s| - i, 9
  {
    if Node(unquotes, s, i).Good? {
      var pos := Head(unquotes, s, i).pos;
      NeutralHead(unquotes, s, i);
      NeutralChildren(unquotes, s, pos);
      NeutralChain(s, i, pos, Node(unquotes, s, i).pos - 1);
    }
  }

  lemma {:induction false} NeutralGroup(unquotes: string -> bool, s: string, i: nat, any: bool)
    requires i <= |s|
    ensures Group(unquotes, s, i, any).Good? ==>
              var m := Group(unquotes, s, i, any).pos;
              s[m - 1] == ')' && Neutral(s, i, m - 1)
    decreases |s| - i, 6
  {
    if Group(unquotes, s, i, any).Good? {
      var at, m := SpaceFrom(s, i, |s|), Group(unquotes, s, i, any).pos;
      if s[at] != ')' {
        var element := if s[at] == '.' then Anchored(unquotes, s, at) else Pattern(unquotes, s, at);
        NeutralAnchored(unquotes, s, at);
        NeutralPattern(unquotes, s, at);
        NeutralGroup(unquotes, s, element.pos, true);
        NeutralChain(s, at, element.pos, m - 1);
      }
      NeutralSpaceTo(s, i, at, m - 1);
    }
  }

  lemma {:induction false} NeutralAnchored(unquotes: string -> bool, s: string, at: nat)
    requires at < |s|
    ensures s[at] == '.' && Anchored(unquotes, s, at).Good? ==> Neutral(s, at, Anchored(unquotes, s, at).pos)
    decreases |s| - at, 0
  {
    if s[at] == '.' && Anchored(unquotes, s, at).Good? {
      var j := Anchored(unquotes, s, at).pos;
      NeutralPattern(unquotes, s, SpaceFrom(s, at + 1, |s|));
      NeutralAfterSpace(s, at + 1, j);
      NeutralByte(s, at);
      NeutralChain(s, at, at + 1, j);
    }
  }

  /** Blanks up to `at`, and neutral text from there. */
  lemma {:induction false} NeutralSpaceTo(s: string, i: nat, at: nat, j: nat)
    requires i <= |s| && at == SpaceFrom(s, i, |s|) && (at == j || Neutral(s, at, j))
    ensures Neutral(s, i, j)
  {
    NeutralSpace(s, i);
    if at != j {
      NeutralChain(s, i, at, j);
    }
  }

  lemma {:induction false} NeutralQuoted(unquotes: string -> bool, s: string, i: nat)
    requires i <= |s|
    ensures Quoted(unquotes, s, i).Good? ==> Neutral(s, i, Quoted(unquotes, s, i).pos)
  {
    if Quoted(unquotes, s, i).Good? {
      NeutralString(s, i);
    }
  }

  lemma {:induction false} NeutralHead(unquotes: string -> bool, s: string, i: nat)
    requires i < |s|
    ensures Head(unquotes, s, i).Good? ==> Neutral(s, i, Head(unquotes, s, i).pos)
  {
    if Head(unquotes, s, i).Good? {
      NeutralRoot(unquotes, s, i);
      var pos := Root(unquotes, s, i).pos;
      var slash := SpaceFrom(s, pos, |s|);
      if slash < |s| && s[slash] == '/' {
        NeutralMarked(s, slash, slash);
        NeutralAfterSpace(s, pos, Head(unquotes, s, i).pos);
        NeutralChain(s, i, pos, Head(unquotes, s, i).pos);
      }
    }
  }

  lemma {:induction false} NeutralRoot(unquotes: string -> bool, s: string, i: nat)
    requires i < |s|
    ensures Root(unquotes, s, i).Good? ==> Neutral(s, i, Root(unquotes, s, i).pos)
  {
    if Root(unquotes, s, i).Good? {
      var j := Root(unquotes, s, i).pos;
      if s[i] == '\"' {
        NeutralQuoted(unquotes, s, i);
      } else if s[i] == '_' || s[i] == '*' {
        NeutralByte(s, i);
      } else {
        var end := IdentFrom(s, i, |s|);
        NeutralIdent(s, i);
        if j != end {
          var arg := SpaceFrom(s, end, |s|);
          NeutralQuoted(unquotes, s, arg);
          NeutralIdent(s, arg);
          NeutralAfterSpace(s, end, j);
          NeutralChain(s, i, end, j);
        }
      }
    }
  }

  lemma {:induction false} NeutralChildren(unquotes: string -> bool, s: string, i: nat)
    requires i <= |s|
    ensures Children(unquotes, s, i).Good? ==>
              var m := Children(unquotes, s, i).pos;
              s[m - 1] == ')' && Neutral(s, i, m - 1)
    decreases |s| - i, 8
  {
    if Children(unquotes, s, i).Good? {
      var at, m := SpaceFrom(s, i, |s|), Children(unquotes, s, i).pos;
      if s[at] != ')' {
        var pos := Child(unquotes, s, at).pos;
        NeutralChild(unquotes, s, at);
        NeutralChildren(unquotes, s, pos);
        NeutralChain(s, at, pos, m - 1);
      }
      NeutralSpaceTo(s, i, at, m - 1);
    }
  }

  lemma {:induction false} NeutralChild(unquotes: string -> bool, s: string, at: nat)
    requires at < |s|
    ensures Child(unquotes, s, at).Good? ==> Neutral(s, at, Child(unquotes, s, at).pos)
    decreases |s| - at, 7
  {
    if Child(unquotes, s, at).Good? {
      var c, j := s[at], Child(unquotes, s, at).pos;
      if c == '!' {
        NeutralIdent(s, SpaceFrom(s, at + 1, |s|));
        NeutralAfterSpace(s, at + 1, j);
        NeutralByte(s, at);
        NeutralChain(s, at, at + 1, j);
      } else if c == '.' {
        NeutralAnchored(unquotes, s, at);
      } else if c == '(' || c == '[' || c == '\"' || c == '_' || c == '*' {
        NeutralPattern(unquotes, s, at);
      } else {
        NeutralField(unquotes, s, at);
      }
    }
  }

  lemma {:induction false} NeutralAlternatives(unquotes: string -> bool, s: string, i: nat, any: bool)
    requires i <= |s|
    ensures Alternatives(unquotes, s, i, any).Good? ==>
              var m := Alternatives(unquotes, s, i, any).pos;
              s[m - 1] == ']' && Neutral(s, i, m - 1)
    decreases |s| - i, 7
  {
    if Alternatives(unquotes, s, i, any).Good? {
      var at, m := SpaceFrom(s, i, |s|), Alternatives(unquotes, s, i, any).pos;
      if s[at] != ']' {
        NeutralBranches(unquotes, s, at, m);
      }
      NeutralSpaceTo(s, i, at, m - 1);
    }
  }

  lemma {:induction false} NeutralBranches(unquotes: string -> bool, s: string, at: nat, m: nat)
    requires at < |s| && Pattern(unquotes, s, at).Good? && Alternatives(unquotes, s, Pattern(unquotes, s, at).pos, true) == Good(m)
    ensures at < m && s[m - 1] == ']' && Neutral(s, at, m - 1)
    decreases |s| - at, 6
  {
    var pos := Pattern(unquotes, s, at).pos;
    NeutralPattern(unquotes, s, at);
    NeutralAlternatives(unquotes, s, pos, true);
    NeutralChain(s, at, pos, m - 1);
  }

  lemma {:induction false} NeutralArguments(unquotes: string -> bool, s: string, i: nat)
    requires i <= |s|
    ensures Arguments(unquotes, s, i).Good? ==>
              var m := Arguments(unquotes, s, i).pos;
              s[m - 1] == ')' && Neutral(s, i, m - 1)
    decreases |s| - i
  {
    if Arguments(unquotes, s, i).Good? {
      var at, m := SpaceFrom(s, i, |s|), Arguments(unquotes, s, i).pos;
      if s[at] != ')' {
        var pos := Argument(unquotes, s, at).pos;
        if s[at] == '@' {
          NeutralMarked(s, at, at);
        } else {
          NeutralQuoted(unquotes, s, at);
          NeutralIdent(s, at);
        }
        NeutralArguments(unquotes, s, pos);
        NeutralChain(s, at, pos, m - 1);
      }
      NeutralSpaceTo(s, i, at, m - 1);
    }
  }

  /** An expression the validator accepts from its opening parenthesis at `k` up to `m` is
  closed at `m - 1` for the depth-counting scanner too, whatever the bound and whatever
  strings, comments and other delimiters lie between. */
  lemma {:induction false} ParenAgreement(unquotes: string -> bool, s: string, k: nat, end: nat)
    requires k < |s| && s[k] == '(' && Paren(unquotes, s, k).Good? && Paren(unquotes, s, k).pos <= end <= |s|
    ensures Balanced(s, k, end, Plain, 0, '(', ')') == (Paren(unquotes, s, k).pos - 1, true)
  {
    ParenCloses(unquotes, s, k);
    PairFound(s, k, Paren(unquotes, s, k).pos - 1, end);
  }

  lemma {:induction false} BracketAgreement(unquotes: string -> bool, s: string, k: nat, end: nat)
    requires k < |s| && s[k] == '[' && Atom(unquotes, s, k).Good? && Atom(unquotes, s, k).pos <= end <= |s|
    ensures Balanced(s, k, end, Plain, 0, '[', ']') == (Atom(unquotes, s, k).pos - 1, true)
  {
    NeutralAlternatives(unquotes, s, k + 1, false);
    PairFound(s, k, Atom(unquotes, s, k).pos - 1, end);
  }

  /** From behind a predicate's operator or any of its arguments, the predicate scanner
  finds the parenthesis at which the validator stops. */
  lemma {:induction false} PredicateAgreement(unquotes: string -> bool, s: string, i: nat)
    requires i <= |s| && Arguments(unquotes, s, i).Good?
    ensures Balanced(s, i, |s|, Plain, 1, '(', ')') == (Arguments(unquotes, s, i).pos - 1, true)
  {
    NeutralArguments(unquotes, s, i);
    assert SameFrom(s, i, Arguments(unquotes, s, i).pos - 1, |s|, 1);
  }
}
