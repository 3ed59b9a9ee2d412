/** The validator as it runs: a parser object whose position is advanced by mutually
recursive methods and their loops. */
module QueryParser {
  import opened Values
  import opened QueryText
  import opened QueryValidator

  class FallbackStructureParser {
    const source: string
    const unquotes: string -> bool
    var pos: nat

    constructor (source: string, unquotes: string -> bool)
      ensures this.source == source && this.unquotes == unquotes && pos == 0
    {
      this.source := source;
      this.unquotes := unquotes;
      pos := 0;
    }

    /** The outcome is the one the grammar gives: the new position, or the error. */
    predicate Is(r: Parsed, err: Option<nat>)
      reads this
    {
      match r
      case Good(p) => err.None? && pos == p
      case Bad(at) => err == Some(at)
    }

    method SkipSpace()
      requires pos <= |source|
      modifies this
      ensures pos == SpaceFrom(source, old(pos), |source|)
    {
      while pos < |source|
        invariant old(pos) <= pos <= |source|
        invariant SpaceFrom(source, pos, |source|) == SpaceFrom(source, old(pos), |source|)
        decreases |source| - pos
      {
        if IsSpace(source[pos]) {
          pos := pos + 1;
        } else if source[pos] == ';' {
          var next := SkipQueryComment(source, pos);
          pos := next;
        } else {
          return;
        }
      }
    }

    method ScanIdentifier() returns (start: nat, end: nat)
      requires pos <= |source|
      modifies this
      ensures start == old(pos) && end == pos == IdentFrom(source, old(pos), |source|)
    {
      start := pos;
      if pos >= |source| || !IsIdentStart(source[pos]) {
        return start, start;
      }
      pos := pos + 1;
      while pos < |source| && IsIdentContinue(source[pos])
        invariant old(pos) < pos <= |source|
        invariant ContinueFrom(source, pos, |source|) == ContinueFrom(source, old(pos) + 1, |source|)
      {
        pos := pos + 1;
      }
      end := pos;
    }

    method ParseQuoted() returns (ok: bool)
      requires pos <= |source|
      modifies this
      ensures ok <==> Quoted(unquotes, source, old(pos)).Good?
      ensures pos == if ok then Quoted(unquotes, source, old(pos)).pos else old(pos)
    {
      if pos >= |source| || source[pos] != '\"' {
        return false;
      }
      var next := SkipQueryQuoted(source, pos);
      if next <= pos || next > |source| || (next == |source| && source[|source| - 1] != '\"') {
        return false;
      }
      if !Decodes(unquotes, source[pos..next]) {
        return false;
      }
      pos := next;
      return true;
    }

    /** `@name` and the like: the error is reported at `at`. */
    method ParseMarked(at: nat) returns (err: Option<nat>)
      requires pos < |source| && at <= |source|
      modifies this
      ensures Is(Marked(source, old(pos), at), err)
    {
      pos := pos + 1;
      if pos >= |source| || !IsIdentStart(source[pos]) {
        return Some(at);
      }
      var _, _ := ScanIdentifier();
      return None;
    }

    method ParseSuffixes() returns (err: Option<nat>)
      requires pos <= |source|
      modifies this
      ensures Is(Suffix(source, old(pos)), err)
    {
      while true
        invariant old(pos) <= pos <= |source|
        invariant Suffix(source, pos) == Suffix(source, old(pos))
        decreases |source| - pos
      {
        SkipSpace();
        if pos >= |source| {
          break;
        }
        if IsQuantifier(source[pos]) {
          pos := pos + 1;
        } else if source[pos] == '@' {
          err := ParseMarked(pos);
          if err.Some? {
            return;
          }
        } else {
          return None;
        }
      }
      return None;
    }

    method ParsePattern() returns (err: Option<nat>)
      requires pos <= |source|
      modifies this
      ensures Is(Pattern(unquotes, source, old(pos)), err)
      decreases |source| - pos, 5
    {
      SkipSpace();
      var start := pos;
      if pos >= |source| {
        return Some(start);
      }
      err := ParseAtom();
      if err.Some? {
        return;
      }
      err := ParseSuffixes();
    }

    method ParseAtom() returns (err: Option<nat>)
      requires pos < |source|
      modifies this
      ensures Is(Atom(unquotes, source, old(pos)), err)
      decreases |source| - pos, 4
    {
      var start := pos;
      var c := source[pos];
      if c == '(' {
        err := ParseParen();
      } else if c == '[' {
        err := ParseAlternatives();
      } else if c == '\"' {
        var ok := ParseQuoted();
        err := if ok then None else Some(start);
      } else if c == '_' || c == '*' {
        pos := pos + 1;
        err := None;
      } else if c == '@' || c == ')' || c == ']' || !IsIdentStart(c) {
        err := Some(start);
      } else {
        var _, _ := ScanIdentifier();
        SkipSpace();
        if pos >= |source| || source[pos] != ':' {
          return Some(start);
        }
        err := ParseValue();
      }
    }

    /** The pattern behind a field's colon. */
    method ParseValue() returns (err: Option<nat>)
      requires pos < |source|
      modifies this
      ensures Is(Value(unquotes, source, old(pos)), err)
      decreases |source| - pos, 6
    {
      pos := pos + 1;
      SkipSpace();
      if pos >= |source| || source[pos] == ')' || source[pos] == ']' {
        return Some(pos);
      }
      err := ParsePattern();
    }

    method ParseParen() returns (err: Option<nat>)
      requires pos < |source|
      modifies this
      ensures Is(Paren(unquotes, source, old(pos)), err)
      decreases |source| - pos, 3
    {
      pos := pos + 1;
      SkipSpace();
      if pos >= |source| || source[pos] == ')' {
        return Some(pos);
      }
      if source[pos] == '#' || source[pos] == '.' {
        err := ParsePredicate();
      } else if source[pos] == '(' || source[pos] == '[' {
        err := ParseGroup();
      } else {
        err := ParseNode();
      }
    }

    method ParseGroup() returns (err: Option<nat>)
      requires pos < |source|
      modifies this
      ensures Is(Group(unquotes, source, old(pos), false), err)
      decreases |source| - pos, 10
    {
      var count := 0;
      while true
        invariant old(pos) <= pos <= |source|
        invariant Group(unquotes, source, pos, count > 0) == Group(unquotes, source, old(pos), false)
        decreases |source| - pos
      {
        SkipSpace();
        if pos >= |source| {
          return Some(pos);
        }
        if source[pos] == ')' {
          if count == 0 {
            return Some(pos);
          }
          pos := pos + 1;
          return None;
        }
        if source[pos] == '.' {
          err := ParseAnchored();
        } else {
          err := ParsePattern();
        }
        if err.Some? {
          return;
        }
        count := count + 1;
      }
    }

    /** An anchor must stand before a pattern. */
    method ParseAnchored() returns (err: Option<nat>)
      requires pos < |source|
      modifies this
      ensures Is(Anchored(unquotes, source, old(pos)), err)
      decreases |source| - pos, 0
    {
      pos := pos + 1;
      SkipSpace();
      if pos >= |source| || source[pos] == ')' {
        return Some(pos);
      }
      err := ParsePattern();
    }

    /** The parser may have gone on to the next token already. */
    method ParseRoot() returns (err: Option<nat>)
      requires pos < |source|
      modifies this
      ensures match Root(unquotes, source, old(pos))
              case Good(p) =>
                err.None? && old(pos) < pos <= |source| && SpaceFrom(source, pos, |source|) == SpaceFrom(source, p, |source|)
              case Bad(at) => err == Some(at)
    {
      if source[pos] == '\"' {
        var ok := ParseQuoted();
        return if ok then None else Some(pos);
      } else if source[pos] == '_' || source[pos] == '*' {
        pos := pos + 1;
        return None;
      }
      if !IsIdentStart(source[pos]) {
        return Some(pos);
      }
      var start, end := ScanIdentifier();
      if source[start..end] == "MISSING" {
        SkipSpace();
        if pos < |source| && source[pos] == '\"' {
          var ok := ParseQuoted();
          return if ok then None else Some(pos);
        } else if pos < |source| && IsIdentStart(source[pos]) {
          var _, _ := ScanIdentifier();
        }
      }
      return None;
    }

    method ParseHead() returns (err: Option<nat>)
      requires pos < |source|
      modifies this
      ensures match Head(unquotes, source, old(pos))
              case Good(p) => err.None? && old(pos) < pos <= |source| && pos == SpaceFrom(source, p, |source|)
              case Bad(at) => err == Some(at)
    {
      err := ParseRoot();
      if err.Some? {
        return;
      }
      SkipSpace();
      if pos < |source| && source[pos] == '/' {
        err := ParseMarked(pos);
        if err.Some? {
          return;
        }
        SkipSpace();
      }
      return None;
    }

    method ParseNode() returns (err: Option<nat>)
      requires pos < |source|
      modifies this
      ensures Is(Node(unquotes, source, old(pos)), err)
      decreases |source| - pos, 9
    {
      err := ParseHead();
      if err.Some? {
        return;
      }
      while true
        invariant old(pos) < pos <= |source|
        invariant Children(unquotes, source, pos) == Node(unquotes, source, old(pos))
        decreases |source| - pos
      {
        SkipSpace();
        if pos >= |source| {
          return Some(pos);
        }
        if source[pos] == ')' {
          pos := pos + 1;
          return None;
        }
        err := ParseChild();
        if err.Some? {
          return;
        }
      }
    }

    method ParseChild() returns (err: Option<nat>)
      requires pos < |source|
      modifies this
      ensures Is(Child(unquotes, source, old(pos)), err)
      decreases |source| - pos, 7
    {
      var c := source[pos];
      if c == '!' {
        pos := pos + 1;
        SkipSpace();
        if pos >= |source| || !IsIdentStart(source[pos]) {
          return Some(pos);
        }
        var _, _ := ScanIdentifier();
        return None;
      } else if c == '.' {
        err := ParseAnchored();
      } else if c == '(' || c == '[' || c == '\"' || c == '_' || c == '*' {
        err := ParsePattern();
      } else {
        if !IsIdentStart(c) {
          return Some(pos);
        }
        var fieldStart, _ := ScanIdentifier();
        SkipSpace();
        if pos >= |source| || source[pos] != ':' {
          return Some(fieldStart);
        }
        err := ParseValue();
      }
    }

    method ParseAlternatives() returns (err: Option<nat>)
      requires pos < |source|
      modifies this
      ensures Is(Alternatives(unquotes, source, old(pos) + 1, false), err)
      decreases |source| - pos, 3
    {
      pos := pos + 1;
      var count := 0;
      while true
        invariant old(pos) < pos <= |source|
        invariant Alternatives(unquotes, source, pos, count > 0) == Alternatives(unquotes, source, old(pos) + 1, false)
        decreases |source| - pos
      {
        SkipSpace();
        if pos >= |source| {
          return Some(pos);
        }
        if source[pos] == ']' {
          if count == 0 {
            return Some(pos);
          }
          pos := pos + 1;
          return None;
        }
        if source[pos] == ')' {
          return Some(pos);
        }
        err := ParsePattern();
        if err.Some? {
          return;
        }
        count := count + 1;
      }
    }

    method ParsePredicate() returns (err: Option<nat>)
      requires pos < |source|
      modifies this
      ensures Is(Predicate(unquotes, source, old(pos)), err)
    {
      err := ParseMarked(pos + 1);
      if err.Some? {
        return;
      }
      while true
        invariant old(pos) < pos <= |source|
        invariant Arguments(unquotes, source, pos) == Predicate(unquotes, source, old(pos))
        decreases |source| - pos
      {
        SkipSpace();
        if pos >= |source| {
          return Some(pos);
        }
        if source[pos] == ')' {
          pos := pos + 1;
          return None;
        }
        if source[pos] == '@' {
          err := ParseMarked(pos);
          if err.Some? {
            return;
          }
        } else if source[pos] == '\"' {
          var ok := ParseQuoted();
          if !ok {
            return Some(pos);
          }
        } else {
          if !IsIdentStart(source[pos]) {
            return Some(pos);
          }
          var _, _ := ScanIdentifier();
        }
      }
    }
  }

  /** No error exactly when the text is a query; otherwise the error's place. */
  method ValidateFallbackStructure(source: string, unquotes: string -> bool) returns (err: Option<nat>)
    ensures err == match Query(unquotes, source, 0) case Good(_) => None case Bad(at) => Some(at)
  {
    var p := new FallbackStructureParser(source, unquotes);
    while true
      invariant p.source == source && p.unquotes == unquotes && p.pos <= |source|
      invariant Query(unquotes, source, p.pos) == Query(unquotes, source, 0)
      decreases |source| - p.pos
    {
      p.SkipSpace();
      if p.pos >= |source| {
        return None;
      }
      err := p.ParsePattern();
      if err.Some? {
        return;
      }
    }
  }
}
