/** How query text is read byte by byte: the lexers shared by the fallback parsers and the
two scanners that look for a closing delimiter.  One character stands for one byte. */
module QueryText {
  import opened Values

  predicate IsIdentStart(c: char) {
    'a' <= c <= 'z' || 'A' <= c <= 'Z' || '0' <= c <= '9' || c == '_' || c == '-'
  }

  predicate IsIdentContinue(c: char) { IsIdentStart(c) || c == '.' || c == '?' || c == '!' }

  predicate IsSpace(c: char) { c == ' ' || c == '\t' || c == '\r' || c == '\n' || c == ',' }

  predicate IsQuantifier(c: char) { c == '?' || c == '*' || c == '+' }

  /** The four classes by their ASCII codes, and which bytes two of them share. */
  lemma {:induction false} Classes(c: char)
    ensures IsIdentStart(c) <==> var b := c as int; b in [0x2D, 0x5F] || 0x30 <= b <= 0x39 || 0x41 <= b <= 0x5A || 0x61 <= b <= 0x7A
    ensures IsIdentContinue(c) && !IsIdentStart(c) <==> c as int in [0x21, 0x2E, 0x3F]
    ensures IsSpace(c) <==> c as int in [0x09, 0x0A, 0x0D, 0x20, 0x2C]
    ensures IsQuantifier(c) <==> c as int in [0x2A, 0x2B, 0x3F]
  {
  }

  // ---------------------------------------------------------------- lexers

  /** Where a string ends that is open at `i`; the end of the text if it never closes. */
  function QuotedFrom(s: string, i: nat, escaped: bool): (r: nat)
    requires i <= |s|
    ensures i <= r <= |s|
    decreases |s| - i
  {
    if i == |s| then i
    else if s[i] == '\"' && !escaped then i + 1
    else QuotedFrom(s, i + 1, s[i] == '\\' && !escaped)
  }

  function CommentFrom(s: string, i: nat, end: nat): (r: nat)
    requires i <= end <= |s|
    ensures i <= r <= end
    decreases end - i
  {
    if i == end || s[i] == '\n' then i else CommentFrom(s, i + 1, end)
  }

  function ContinueFrom(s: string, i: nat, end: nat): (r: nat)
    requires i <= end <= |s|
    ensures i <= r <= end
    decreases end - i
  {
    if i < end && IsIdentContinue(s[i]) then ContinueFrom(s, i + 1, end) else i
  }

  /** The end of the identifier at `i`; `i` itself if there is none. */
  function IdentFrom(s: string, i: nat, end: nat): (r: nat)
    requires i <= end <= |s|
    ensures i <= r <= end
    ensures r > i <==> i < end && IsIdentStart(s[i])
  {
    if i < end && IsIdentStart(s[i]) then ContinueFrom(s, i + 1, end) else i
  }

  /** The first byte at or after `i` that is neither blank, comma nor comment. */
  function SpaceFrom(s: string, i: nat, end: nat): (r: nat)
    requires i <= end <= |s|
    ensures i <= r <= end
    ensures r < end ==> !IsSpace(s[r]) && s[r] != ';'
    decreases end - i
  {
    if i == end then i
    else if IsSpace(s[i]) then SpaceFrom(s, i + 1, end)
    else if s[i] == ';' then
      assert CommentFrom(s, i, end) > i;
      SpaceFrom(s, CommentFrom(s, i, end), end)
    else i
  }

  method SkipQueryQuoted(s: string, start: nat) returns (r: nat)
    ensures r == if start < |s| && s[start] == '\"' then QuotedFrom(s, start + 1, false) else start + 1
  {
    if start >= |s| || s[start] != '\"' {
      return start + 1;
    }
    var escaped := false;
    var offset := start + 1;
    while offset < |s|
      invariant start < offset <= |s|
      invariant QuotedFrom(s, offset, escaped) == QuotedFrom(s, start + 1, false)
    {
      var c := s[offset];
      if c == '\"' && !escaped {
        return offset + 1;
      }
      if c == '\\' && !escaped {
        escaped := true;
      } else {
        escaped := false;
      }
      offset := offset + 1;
    }
    return |s|;
  }

  method SkipQueryComment(s: string, start: nat) returns (r: nat)
    requires start <= |s|
    ensures r == CommentFrom(s, start, |s|)
  {
    r := start;
    while r < |s| && s[r] != '\n'
      invariant r <= |s| && CommentFrom(s, r, |s|) == CommentFrom(s, start, |s|)
    {
      r := r + 1;
    }
  }

  method SkipFallbackSpace(s: string, start: nat, end: nat) returns (i: nat)
    requires end <= |s|
    ensures i == if start <= end then SpaceFrom(s, start, end) else start
  {
    i := start;
    while i < end
      invariant start <= end ==> i <= end && SpaceFrom(s, i, end) == SpaceFrom(s, start, end)
      invariant start > end ==> i == start
      decreases end - i, i < end && s[i] == ';'
    {
      if IsSpace(s[i]) {
        i := i + 1;
      } else if s[i] == ';' {
        ghost var at := i;
        while i < end && s[i] != '\n'
          invariant at <= i <= end && CommentFrom(s, i, end) == CommentFrom(s, at, end)
          invariant i == at ==> s[i] == ';'
        {
          i := i + 1;
        }
      } else {
        return;
      }
    }
  }

  // ---------------------------------------------------------------- delimiters

  datatype Mode = Plain | InString | Escaped | Comment

  /** Where the delimiter opened `depth` times is closed again, reading `s[i..end]` in the
  given mode: its position, or `end` and false. */
  function Balanced(s: string, i: nat, end: nat, mode: Mode, depth: int, left: char, right: char): (r: (nat, bool))
    requires i <= end <= |s|
    ensures i <= r.0 <= end && (r.1 <==> r.0 < end) && (r.1 ==> s[r.0] == right)
    ensures r.1 && s[i] != right ==> i < r.0
    decreases end - i
  {
    if i == end then (end, false)
    else
      var c := s[i];
      match mode
      case Escaped => Balanced(s, i + 1, end, InString, depth, left, right)
      case InString =>
        Balanced(s, i + 1, end, if c == '\\' then Escaped else if c == '\"' then Plain else InString, depth, left, right)
      case Comment => Balanced(s, i + 1, end, if c == '\n' then Plain else Comment, depth, left, right)
      case Plain =>
        if c == '\"' then Balanced(s, i + 1, end, InString, depth, left, right)
        else if c == ';' then Balanced(s, i + 1, end, Comment, depth, left, right)
        else if c == left then Balanced(s, i + 1, end, Plain, depth + 1, left, right)
        else if c == right then
          if depth == 1 then (i, true) else Balanced(s, i + 1, end, Plain, depth - 1, left, right)
        else Balanced(s, i + 1, end, Plain, depth, left, right)
  }

  predicate AreDelimiters(left: char, right: char) { (left, right) == ('(', ')') || (left, right) == ('[', ']') }

  method FallbackBalancedEnd(s: string, open: nat, end: nat, left: char, right: char) returns (r: nat, ok: bool)
    requires open <= end <= |s| && AreDelimiters(left, right)
    ensures (r, ok) == Balanced(s, open, end, Plain, 0, left, right)
  {
    var depth := 0;
    var inString, escaped := false, false;
    var i := open;
    while i < end
      invariant open <= i <= end
      invariant Balanced(s, open, end, Plain, 0, left, right)
             == Balanced(s, i, end, if escaped then Escaped else if inString then InString else Plain, depth, left, right)
      invariant escaped ==> inString
    {
      var c := s[i];
      if inString {
        if escaped {
          escaped := false;
        } else if c == '\\' {
          escaped := true;
        } else if c == '\"' {
          inString := false;
        }
        i := i + 1;
        continue;
      }
      if c == '\"' {
        inString := true;
        i := i + 1;
        continue;
      }
      if c == ';' {
        CommentJump(s, i, end, depth, left, right);
        ghost var at := i;
        while i < end && s[i] != '\n'
          invariant at <= i <= end && CommentFrom(s, i, end) == CommentFrom(s, at, end)
        {
          i := i + 1;
        }
        if i >= end {
          break;
        }
        c := s[i];
      }
      if c == left {
        depth := depth + 1;
      } else if c == right {
        depth := depth - 1;
        if depth == 0 {
          return i, true;
        }
      }
      i := i + 1;
    }
    return end, false;
  }

  /** A comment is read as if the text went on at its newline. */
  lemma {:induction false} CommentJump(s: string, i: nat, end: nat, depth: int, left: char, right: char)
    requires i < end <= |s| && s[i] == ';' && AreDelimiters(left, right)
    ensures Balanced(s, i, end, Plain, depth, left, right) == Balanced(s, CommentFrom(s, i, end), end, Plain, depth, left, right)
  {
    InComment(s, i + 1, end, depth, left, right);
  }

  lemma {:induction false} InComment(s: string, i: nat, end: nat, depth: int, left: char, right: char)
    requires i <= end <= |s| && AreDelimiters(left, right)
    ensures Balanced(s, i, end, Comment, depth, left, right) == Balanced(s, CommentFrom(s, i, end), end, Plain, depth, left, right)
    decreases end - i
  {
    if i < end && s[i] != '\n' {
      InComment(s, i + 1, end, depth, left, right);
    }
  }

  /** So is a string, as if it went on behind its closing quote. */
  lemma {:induction false} StringJump(s: string, i: nat, end: nat, escaped: bool, depth: int, left: char, right: char)
    requires i <= end <= |s| && QuotedFrom(s, i, escaped) <= end
    ensures Balanced(s, i, end, if escaped then Escaped else InString, depth, left, right)
         == Balanced(s, QuotedFrom(s, i, escaped), end, Plain, depth, left, right)
    decreases end - i
  {
    if i < end && (s[i] != '\"' || escaped) {
      StringJump(s, i + 1, end, s[i] == '\\' && !escaped, depth, left, right);
    }
  }

  /** The scanner for the end of a predicate jumps over strings and comments and counts only
  nested parentheses; it finds what the mode-keeping scanner finds with one open. */
  method ScanTextPredicateEnd(s: string, offset: nat) returns (r: nat)
    requires offset <= |s|
    ensures r == Balanced(s, offset, |s|, Plain, 1, '(', ')').0
  {
    var depth := 0;
    var position := offset;
    while position < |s|
      invariant offset <= position <= |s| && 0 <= depth
      invariant Balanced(s, offset, |s|, Plain, 1, '(', ')') == Balanced(s, position, |s|, Plain, depth + 1, '(', ')')
    {
      if s[position] == '\"' {
        StringJump(s, position + 1, |s|, false, depth + 1, '(', ')');
        var next := SkipQueryQuoted(s, position);
        position := next - 1;
      } else if s[position] == ';' {
        CommentJump(s, position, |s|, depth + 1, '(', ')');
        var next := SkipQueryComment(s, position);
        position := next - 1;
      } else if s[position] == '(' {
        depth := depth + 1;
      } else if s[position] == ')' {
        if depth == 0 {
          return position;
        }
        depth := depth - 1;
      }
      position := position + 1;
    }
    return |s|;
  }

  // ---------------------------------------------------------------- neutral text

  /** Up to `end` and at depth `d`, reading on at `i` and at `j` finds the same delimiter. */
  ghost predicate SameFrom(s: string, i: nat, j: nat, end: nat, d: int)
    requires i <= j <= end <= |s|
  {
    && Balanced(s, i, end, Plain, d, '(', ')') == Balanced(s, j, end, Plain, d, '(', ')')
    && Balanced(s, i, end, Plain, d, '[', ']') == Balanced(s, j, end, Plain, d, '[', ']')
  }

  /** Both scanners pass `s[i..j]` as if it were not there, at every depth. */
  ghost predicate Neutral(s: string, i: nat, j: nat) {
    i <= j <= |s| && forall end: nat, d: int :: j <= end <= |s| && d >= 1 ==> SameFrom(s, i, j, end, d)
  }

  lemma {:induction false} NeutralChain(s: string, i: nat, j: nat, k: nat)
    requires Neutral(s, i, j) && Neutral(s, j, k)
    ensures Neutral(s, i, k)
  {
    forall end: nat, d: int | k <= end <= |s| && d >= 1
      ensures SameFrom(s, i, k, end, d)
    {
      assert SameFrom(s, i, j, end, d) && SameFrom(s, j, k, end, d);
    }
  }

  lemma {:induction false} NeutralByte(s: string, i: nat)
    requires i < |s| && s[i] !in ['\"', ';', '(', ')', '[', ']']
    ensures Neutral(s, i, i + 1)
  {
  }

  lemma {:induction false} NeutralContinue(s: string, i: nat)
    requires i <= |s|
    ensures Neutral(s, i, ContinueFrom(s, i, |s|))
    decreases |s| - i
  {
    if i < |s| && IsIdentContinue(s[i]) {
      NeutralByte(s, i);
      NeutralContinue(s, i + 1);
      NeutralChain(s, i, i + 1, ContinueFrom(s, i, |s|));
    }
  }

  lemma {:induction false} NeutralIdent(s: string, i: nat)
    requires i <= |s|
    ensures Neutral(s, i, IdentFrom(s, i, |s|))
  {
    if i < |s| && IsIdentStart(s[i]) {
      NeutralByte(s, i);
      NeutralContinue(s, i + 1);
      NeutralChain(s, i, i + 1, IdentFrom(s, i, |s|));
    }
  }

  lemma {:induction false} NeutralComment(s: string, i: nat)
    requires i < |s| && s[i] == ';'
    ensures Neutral(s, i, CommentFrom(s, i, |s|))
  {
    var j := CommentFrom(s, i, |s|);
    forall end: nat, d: int | j <= end <= |s| && d >= 1
      ensures SameFrom(s, i, j, end, d)
    {
      CommentWithin(s, i, end);
      if i < end {
        CommentJump(s, i, end, d, '(', ')');
        CommentJump(s, i, end, d, '[', ']');
      }
    }
  }

  lemma {:induction false} CommentWithin(s: string, i: nat, end: nat)
    requires i <= end <= |s| && CommentFrom(s, i, |s|) <= end
    ensures CommentFrom(s, i, end) == CommentFrom(s, i, |s|)
    decreases end - i
  {
    if i < end && s[i] != '\n' {
      CommentWithin(s, i + 1, end);
    }
  }

  lemma {:induction false} NeutralSpace(s: string, i: nat)
    requires i <= |s|
    ensures Neutral(s, i, SpaceFrom(s, i, |s|))
    decreases |s| - i
  {
    if i < |s| && IsSpace(s[i]) {
      NeutralByte(s, i);
      NeutralSpace(s, i + 1);
      NeutralChain(s, i, i + 1, SpaceFrom(s, i, |s|));
    } else if i < |s| && s[i] == ';' {
      var j := CommentFrom(s, i, |s|);
      NeutralComment(s, i);
      NeutralSpace(s, j);
      NeutralChain(s, i, j, SpaceFrom(s, i, |s|));
    }
  }

  lemma {:induction false} NeutralString(s: string, i: nat)
    requires i < |s| && s[i] == '\"'
    ensures Neutral(s, i, QuotedFrom(s, i + 1, false))
  {
    var j := QuotedFrom(s, i + 1, false);
    forall end: nat, d: int | j <= end <= |s| && d >= 1
      ensures SameFrom(s, i, j, end, d)
    {
      StringJump(s, i + 1, end, false, d, '(', ')');
      StringJump(s, i + 1, end, false, d, '[', ']');
    }
  }

  /** Delimiters around neutral text make neutral text. */
  lemma {:induction false} NeutralPair(s: string, i: nat, j: nat)
    requires i < j < |s| && Neutral(s, i + 1, j) && AreDelimiters(s[i], s[j])
    ensures Neutral(s, i, j + 1)
  {
    var k := j + 1;
    forall end: nat, d: int | k <= end <= |s| && d >= 1
      ensures SameFrom(s, i, k, end, d)
    {
      assert SameFrom(s, i + 1, j, end, d) && SameFrom(s, i + 1, j, end, d + 1);
    }
  }

  /** And each delimiter is found to close the other. */
  lemma {:induction false} PairFound(s: string, i: nat, j: nat, end: nat)
    requires i < j < end <= |s| && Neutral(s, i + 1, j) && AreDelimiters(s[i], s[j])
    ensures Balanced(s, i, end, Plain, 0, s[i], s[j]) == (j, true)
  {
    assert SameFrom(s, i + 1, j, end, 1);
  }
}
