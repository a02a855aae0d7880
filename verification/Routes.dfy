/** Expansion of route patterns into path templates (scripts/cli-route-surface.ts). */
module Routes {

  datatype Failure = UnclosedGroup | DanglingEscape | Stuck | Unparsed

  /** The outcome of a parser on the remaining input: expanded paths and what is left to read. */
  datatype Parsed = Error(error: Failure) | Ok(paths: seq<string>, rest: string)

  datatype Expansion = Rejected(error: Failure) | Accepted(paths: seq<string>)

  const PARAMETER := "[^/]+"

  predicate Starts(s: string, prefix: string) { prefix <= s }

  lemma NotStarts(s: string, prefix: string, i: nat)
    requires i < |prefix| && (i < |s| ==> s[i] != prefix[i])
    ensures !Starts(s, prefix)
  {
  }

  predicate Closes(s: string) { s == "" || s[0] == ')' || s[0] == '|' }

  /** Where a literal run ends. */
  predicate EndsLiteral(s: string) {
    s == "" || s[0] == '(' || s[0] == ')' || s[0] == '|' || s[0] == '?' || Starts(s, PARAMETER)
  }

  function Prefixed(left: string, right: seq<string>): (r: seq<string>)
    ensures |r| == |right|
  {
    if right == [] then [] else [left + right[0]] + Prefixed(left, right[1..])
  }

  /** Every path of `left` continued by every path of `right`, in order. */
  function Cross(left: seq<string>, right: seq<string>): seq<string> {
    if left == [] then [] else Prefixed(left[0], right) + Cross(left[1..], right)
  }

  function ParseAlternation(s: string): (r: Parsed)
    ensures r.Ok? ==> |r.rest| <= |s|
    decreases |s|, 3
  {
    var option := ParseConcatenation(s, [""]);
    if option.Error? then option else ParseOptions(option.rest, option.paths)
  }

  /** The remaining `|`-separated options, appended to those read so far. */
  function ParseOptions(s: string, paths: seq<string>): (r: Parsed)
    ensures r.Ok? ==> |r.rest| <= |s|
    decreases |s|, 2
  {
    if s == "" || s[0] != '|' then Ok(paths, s)
    else
      var option := ParseConcatenation(s[1..], [""]);
      if option.Error? then option else ParseOptions(option.rest, paths + option.paths)
  }

  function ParseConcatenation(s: string, paths: seq<string>): (r: Parsed)
    ensures r.Ok? ==> |r.rest| <= |s|
    decreases |s|, 1
  {
    if Closes(s) then Ok(paths, s)
    else
      var next := ParseAtom(s);
      if next.Error? then next else ParseConcatenation(next.rest, Cross(paths, next.paths))
  }

  function ParseAtom(s: string): (r: Parsed)
    requires s != ""
    ensures r.Ok? ==> |r.rest| < |s|
    decreases |s|, 0
  {
    if s[0] == '(' then
      var inner := ParseAlternation(s[if Starts(s, "(?:") then 3 else 1..]);
      if inner.Error? then inner
      else if inner.rest == "" || inner.rest[0] != ')' then Error(UnclosedGroup)
      else if |inner.rest| > 1 && inner.rest[1] == '?' then Ok([""] + inner.paths, inner.rest[2..])
      else Ok(inner.paths, inner.rest[1..])
    else if Starts(s, PARAMETER) then Ok(["{}"], s[|PARAMETER|..])
    else
      var literal := ParseLiteral(s, "");
      if literal.Ok? && |literal.rest| == |s| then Error(Stuck) else literal
  }

  function ParseLiteral(s: string, literal: string): (r: Parsed)
    ensures r.Ok? ==> |r.rest| <= |s|
  {
    if EndsLiteral(s) then Ok([literal], s)
    else if s[0] == '\\' then
      if |s| == 1 then Error(DanglingEscape) else ParseLiteral(s[2..], literal + [s[1]])
    else if s[0] == '^' || s[0] == '$' then ParseLiteral(s[1..], literal)
    else ParseLiteral(s[1..], literal + [s[0]])
  }

  function NonEmpty(paths: seq<string>): seq<string> {
    if paths == [] then []
    else (if paths[0] == "" then [] else [paths[0]]) + NonEmpty(paths[1..])
  }

  function Expand(pattern: string): Expansion {
    var r := ParseAlternation(pattern);
    if r.Error? then Rejected(r.error)
    else if r.rest != "" then Rejected(Unparsed)
    else Accepted(NonEmpty(r.paths))
  }

  // ---- Laws of Cross. ----

  lemma Assoc(a: seq<string>, b: seq<string>, c: seq<string>)
    ensures a + b + c == a + (b + c)
  {
  }

  lemma {:induction false} PrefixedCompose(x: string, y: string, right: seq<string>)
    ensures Prefixed(x, Prefixed(y, right)) == Prefixed(x + y, right)
  {
    if right != [] {
      PrefixedCompose(x, y, right[1..]);
      assert x + (y + right[0]) == x + y + right[0];
      assert Prefixed(y, right)[1..] == Prefixed(y, right[1..]);
    }
  }

  lemma {:induction false} PrefixedConcat(x: string, a: seq<string>, b: seq<string>)
    ensures Prefixed(x, a + b) == Prefixed(x, a) + Prefixed(x, b)
  {
    if a == [] {
      assert a + b == b;
    } else {
      PrefixedConcat(x, a[1..], b);
      assert (a + b)[1..] == a[1..] + b;
      Assoc([x + a[0]], Prefixed(x, a[1..]), Prefixed(x, b));
    }
  }

  lemma {:induction false} CrossConcat(a: seq<string>, b: seq<string>, right: seq<string>)
    ensures Cross(a + b, right) == Cross(a, right) + Cross(b, right)
  {
    hide Prefixed;
    if a == [] {
      assert a + b == b;
    } else {
      CrossConcat(a[1..], b, right);
      assert (a + b)[1..] == a[1..] + b;
      Assoc(Prefixed(a[0], right), Cross(a[1..], right), Cross(b, right));
    }
  }

  lemma {:induction false} PrefixedCross(x: string, b: seq<string>, c: seq<string>)
    ensures Cross(Prefixed(x, b), c) == Prefixed(x, Cross(b, c))
  {
    if b != [] {
      var head, tail := Prefixed(b[0], c), Cross(b[1..], c);
      calc {
        Cross(Prefixed(x, b), c);
        { assert Prefixed(x, b)[1..] == Prefixed(x, b[1..]); }
        Prefixed(x + b[0], c) + Cross(Prefixed(x, b[1..]), c);
        { PrefixedCross(x, b[1..], c); PrefixedCompose(x, b[0], c); }
        Prefixed(x, head) + Prefixed(x, tail);
        { PrefixedConcat(x, head, tail); }
        Prefixed(x, Cross(b, c));
      }
    }
  }

  lemma {:induction false} CrossAssociative(a: seq<string>, b: seq<string>, c: seq<string>)
    ensures Cross(Cross(a, b), c) == Cross(a, Cross(b, c))
  {
    hide Prefixed;
    if a != [] {
      CrossAssociative(a[1..], b, c);
      CrossConcat(Prefixed(a[0], b), Cross(a[1..], b), c);
      PrefixedCross(a[0], b, c);
    }
  }

  lemma {:induction false} PrefixedEmpty(right: seq<string>)
    ensures Prefixed("", right) == right
  {
    if right != [] {
      PrefixedEmpty(right[1..]);
      assert "" + right[0] == right[0];
    }
  }

  lemma CrossOne(x: string, right: seq<string>)
    ensures Cross([x], right) == Prefixed(x, right)
  {
    hide Prefixed;
    assert [x][1..] == [];
  }

  lemma {:induction false} CrossUnit(paths: seq<string>)
    ensures Cross(paths, [""]) == paths && Cross([""], paths) == paths
  {
    CrossOne("", paths);
    PrefixedEmpty(paths);
    if paths != [] {
      CrossUnit(paths[1..]);
      CrossSingle(paths[0], "");
      CrossOne(paths[0], [""]);
      assert paths[0] + "" == paths[0];
      assert paths == [paths[0]] + paths[1..];
    }
  }

  lemma CrossSingle(x: string, y: string)
    ensures Cross([x], [y]) == [x + y]
  {
    assert [x][1..] == [] && [y][1..] == [];
  }

  // ---- The parser as the source writes it: nested functions advancing a shared index. ----

  method Combine(paths: seq<string>, next: seq<string>) returns (combined: seq<string>)
    ensures combined == Cross(paths, next)
  {
    combined := [];
    for i := 0 to |paths|
      invariant combined == Cross(paths[..i], next)
    {
      for j := 0 to |next|
        invariant combined == Cross(paths[..i], next) + Prefixed(paths[i], next[..j])
      {
        combined := combined + [paths[i] + next[j]];
        PrefixedConcat(paths[i], next[..j], [next[j]]);
        assert next[..j + 1] == next[..j] + [next[j]];
        assert Prefixed(paths[i], [next[j]]) == [paths[i] + next[j]];
      }
      assert next[..|next|] == next;
      CrossConcat(paths[..i], [paths[i]], next);
      CrossOne(paths[i], next);
      assert paths[..i + 1] == paths[..i] + [paths[i]];
    }
    assert paths[..|paths|] == paths;
  }

  lemma {:induction false} NonEmptySnoc(paths: seq<string>, x: string)
    ensures NonEmpty(paths + [x]) == NonEmpty(paths) + if x == "" then [] else [x]
  {
    if paths != [] {
      NonEmptySnoc(paths[1..], x);
      assert (paths + [x])[1..] == paths[1..] + [x];
    }
  }

  method Filter(paths: seq<string>) returns (kept: seq<string>)
    ensures kept == NonEmpty(paths)
  {
    kept := [];
    for i := 0 to |paths|
      invariant kept == NonEmpty(paths[..i])
    {
      NonEmptySnoc(paths[..i], paths[i]);
      assert paths[..i + 1] == paths[..i] + [paths[i]];
      if |paths[i]| > 0 {
        kept := kept + [paths[i]];
      }
    }
    assert paths[..|paths|] == paths;
  }

  class Parser {
    const pattern: string
    var index: nat

    constructor (pattern: string)
      ensures this.pattern == pattern && index == 0
    {
      this.pattern := pattern;
      index := 0;
    }

    ghost predicate Valid()
      reads this
    {
      index <= |pattern|
    }

    function Left(): string
      requires Valid()
      reads this
    {
      pattern[index..]
    }

    predicate Peek(text: string)
      requires Valid()
      reads this
    {
      Starts(Left(), text)
    }

    /** A method did what the parser function says of the input it started from. */
    twostate predicate Did(spec: Parsed, r: Parsed)
      requires old(Valid())
      reads this
    {
      && Valid()
      && (spec.Error? ==> r == spec)
      && (spec.Ok? ==> r.Ok? && r.paths == spec.paths && r.rest == spec.rest == Left())
    }

    method Alternation() returns (r: Parsed)
      requires Valid()
      modifies this
      ensures Did(ParseAlternation(old(Left())), r)
      decreases |pattern| - index, 2
    {
      ghost var whole := ParseAlternation(Left());
      r := Concatenation();
      if r.Error? {
        return;
      }
      var options := r.paths;
      while index < |pattern| && pattern[index] == '|'
        invariant Valid() && old(index) <= index
        invariant ParseOptions(Left(), options) == whole
        decreases |pattern| - index
      {
        assert Left()[1..] == pattern[index + 1..];
        index := index + 1;
        r := Concatenation();
        if r.Error? {
          return;
        }
        options := options + r.paths;
      }
      r := Ok(options, Left());
    }

    method Concatenation() returns (r: Parsed)
      requires Valid()
      modifies this
      ensures Did(ParseConcatenation(old(Left()), [""]), r)
      decreases |pattern| - index, 1
    {
      ghost var whole := ParseConcatenation(Left(), [""]);
      var paths := [""];
      while index < |pattern| && pattern[index] != ')' && pattern[index] != '|'
        invariant Valid() && old(index) <= index
        invariant ParseConcatenation(Left(), paths) == whole
        decreases |pattern| - index
      {
        var next := Atom();
        if next.Error? {
          return next;
        }
        paths := Combine(paths, next.paths);
      }
      r := Ok(paths, Left());
    }

    method Atom() returns (r: Parsed)
      requires Valid() && index < |pattern|
      modifies this
      ensures Did(ParseAtom(old(Left())), r)
      decreases |pattern| - index, 0
    {
      ghost var s := Left();
      if Peek("(?:") || pattern[index] == '(' {
        index := index + if Peek("(?:") then 3 else 1;
        assert Left() == s[if Starts(s, "(?:") then 3 else 1..];
        var inner := Alternation();
        if inner.Error? {
          return inner;
        }
        ghost var after := Left();
        if index == |pattern| || pattern[index] != ')' {
          return Error(UnclosedGroup);
        }
        index := index + 1;
        assert Left() == after[1..];
        if index < |pattern| && pattern[index] == '?' {
          index := index + 1;
          assert Left() == after[2..];
          return Ok([""] + inner.paths, Left());
        }
        return Ok(inner.paths, Left());
      }
      if Peek(PARAMETER) {
        index := index + |PARAMETER|;
        assert Left() == s[|PARAMETER|..];
        return Ok(["{}"], Left());
      }
      r := Literal();
    }

    method Literal() returns (r: Parsed)
      requires Valid() && index < |pattern| && Left()[0] != '(' && !Peek(PARAMETER)
      modifies this
      ensures Did(ParseAtom(old(Left())), r)
    {
      var start := index;
      ghost var whole := ParseLiteral(Left(), "");
      var literal := "";
      while
        && index < |pattern|
        && pattern[index] != '('
        && pattern[index] != ')'
        && pattern[index] != '|'
        && pattern[index] != '?'
        && !Peek(PARAMETER)
        && !Peek("(?:")
        invariant Valid() && start <= index
        invariant ParseLiteral(Left(), literal) == whole
        decreases |pattern| - index
      {
        ghost var s := Left();
        var current := pattern[index];
        if current == '\\' {
          if index + 1 == |pattern| {
            return Error(DanglingEscape);
          }
          literal := literal + [pattern[index + 1]];
          index := index + 2;
          assert Left() == s[2..];
          continue;
        }
        assert pattern[index + 1..] == s[1..];
        if current == '^' || current == '$' {
          index := index + 1;
          continue;
        }
        literal := literal + [current];
        index := index + 1;
      }
      if index == start {
        return Error(Stuck);
      }
      r := Ok([literal], Left());
    }
  }

  method ExpandRoutePattern(pattern: string) returns (r: Expansion)
    ensures r == Expand(pattern)
  {
    var parser := new Parser(pattern);
    var results := parser.Alternation();
    if results.Error? {
      return Rejected(results.error);
    }
    if parser.index != |pattern| {
      return Rejected(Unparsed);
    }
    var kept := Filter(results.paths);
    return Accepted(kept);
  }

  // ---- Abstract syntax, its printed form and the paths it denotes. ----

  datatype Char = Plain(c: char) | Escaped(c: char) | Anchor(c: char)

  datatype Piece = Lit(symbol: Char) | Param | Group(capturing: bool, body: Alternatives, optional: bool)

  datatype Pieces = Nil | Cons(head: Piece, tail: Pieces)

  datatype Alternatives = One(only: Pieces) | Or(first: Pieces, others: Alternatives)

  function PrintChar(x: Char): string {
    match x
    case Plain(c) => [c]
    case Escaped(c) => ['\\', c]
    case Anchor(c) => [c]
  }

  function PrintPiece(x: Piece): string {
    match x
    case Lit(c) => PrintChar(c)
    case Param => PARAMETER
    case Group(capturing, body, optional) =>
      (if capturing then "(" else "(?:") + PrintAlternatives(body) + (if optional then ")?" else ")")
  }

  function PrintPieces(xs: Pieces): string {
    match xs
    case Nil => ""
    case Cons(x, rest) => PrintPiece(x) + PrintPieces(rest)
  }

  function PrintAlternatives(a: Alternatives): string {
    match a
    case One(xs) => PrintPieces(xs)
    case Or(xs, rest) => PrintPieces(xs) + "|" + PrintAlternatives(rest)
  }

  function CharText(x: Char): string {
    if x.Anchor? then "" else [x.c]
  }

  function DenotePiece(x: Piece): seq<string> {
    match x
    case Lit(c) => [CharText(c)]
    case Param => ["{}"]
    case Group(_, body, optional) => (if optional then [""] else []) + DenoteAlternatives(body)
  }

  function DenotePieces(xs: Pieces): seq<string> {
    match xs
    case Nil => [""]
    case Cons(x, rest) => Cross(DenotePiece(x), DenotePieces(rest))
  }

  function DenoteAlternatives(a: Alternatives): seq<string> {
    match a
    case One(xs) => DenotePieces(xs)
    case Or(xs, rest) => DenotePieces(xs) + DenoteAlternatives(rest)
  }

  /** A character that means itself outside a parameter. */
  predicate Ordinary(c: char) {
    c != '(' && c != ')' && c != '|' && c != '?' && c != '\\' && c != '^' && c != '$'
  }

  predicate ProperChar(x: Char) {
    match x
    case Plain(c) => Ordinary(c)
    case Escaped(_) => true
    case Anchor(c) => c == '^' || c == '$'
  }

  predicate ProperPiece(x: Piece) {
    match x
    case Lit(c) => ProperChar(c)
    case Param => true
    case Group(_, body, _) => Proper(body)
  }

  /** Before the text `after`, no literal character is the first of a run that spells the parameter. */
  predicate ProperPieces(xs: Pieces, after: string) {
    xs.Cons? ==>
      && ProperPiece(xs.head) && ProperPieces(xs.tail, after)
      && (xs.head.Lit? ==> !Starts(PrintPieces(xs) + after, PARAMETER))
  }

  predicate Proper(a: Alternatives) {
    match a
    case One(xs) => ProperPieces(xs, "")
    case Or(xs, rest) => ProperPieces(xs, "") && Proper(rest)
  }

  /** What closes a list of pieces is no part of a parameter. */
  lemma ClosedRun(xs: Pieces, rest: string)
    requires Closes(rest) && !Starts(PrintPieces(xs) + "", PARAMETER)
    ensures !Starts(PrintPieces(xs) + rest, PARAMETER)
  {
    var s := PrintPieces(xs);
    assert s + "" == s;
    if |s| < |PARAMETER| {
      if |s + rest| > |s| {
        assert (s + rest)[|s|] == rest[0];
        NotStarts(s + rest, PARAMETER, |s|);
      }
    } else {
      assert (s + rest)[..|PARAMETER|] == s[..|PARAMETER|];
    }
  }

  lemma {:induction false} ProperWithout(xs: Pieces, rest: string)
    requires ProperPieces(xs, rest)
    ensures ProperPieces(xs, "")
  {
    hide ProperPiece, PrintPiece;
    if xs.Cons? {
      ProperWithout(xs.tail, rest);
      assert PrintPieces(xs) + "" == PrintPieces(xs);
      if xs.head.Lit? {
        ShorterStarts(PrintPieces(xs), rest);
      }
    }
  }

  lemma ShorterStarts(s: string, rest: string)
    ensures Starts(s, PARAMETER) ==> Starts(s + rest, PARAMETER)
  {
  }

  // ---- Reading back what was printed. ----

  /** The text of the leading literal characters, which the parser reads as one atom. */
  function RunText(xs: Pieces): string {
    if xs.Cons? && xs.head.Lit? then CharText(xs.head.symbol) + RunText(xs.tail) else ""
  }

  function AfterRun(xs: Pieces): (r: Pieces)
    ensures xs.Cons? && xs.head.Lit? ==> r < xs
  {
    if xs.Cons? && xs.head.Lit? then AfterRun(xs.tail) else xs
  }

  lemma LiteralStep(c: Char, next: string, literal: string)
    requires ProperChar(c) && !Starts(PrintChar(c) + next, PARAMETER)
    ensures ParseLiteral(PrintChar(c) + next, literal) == ParseLiteral(next, literal + CharText(c))
  {
    var s := PrintChar(c) + next;
    assert s[|PrintChar(c)|..] == next;
    assert literal + "" == literal;
  }

  lemma RunEnds(xs: Pieces, rest: string, literal: string)
    requires Closes(rest) && (xs.Cons? ==> !xs.head.Lit?)
    ensures ParseLiteral(PrintPieces(xs) + rest, literal) == Ok([literal], PrintPieces(xs) + rest)
  {
    if xs.Cons? {
      assert PrintPieces(xs) + rest == PrintPiece(xs.head) + (PrintPieces(xs.tail) + rest);
    } else {
      assert PrintPieces(xs) + rest == rest;
    }
  }

  lemma {:induction false} LiteralReads(xs: Pieces, rest: string, literal: string)
    requires ProperPieces(xs, "") && Closes(rest)
    ensures ParseLiteral(PrintPieces(xs) + rest, literal) ==
            Ok([literal + RunText(xs)], PrintPieces(AfterRun(xs)) + rest)
    ensures ProperPieces(AfterRun(xs), "")
  {
    hide PrintChar, CharText, ProperChar, EndsLiteral, ParseLiteral, Closes, Starts;
    if xs.Cons? && xs.head.Lit? {
      var c := xs.head.symbol;
      var next := PrintPieces(xs.tail) + rest;
      LiteralReads(xs.tail, rest, literal + CharText(c));
      ClosedRun(xs, rest);
      assert PrintPieces(xs) + rest == PrintChar(c) + next;
      LiteralStep(c, next, literal);
      assert literal + CharText(c) + RunText(xs.tail) == literal + RunText(xs);
    } else {
      RunEnds(xs, rest, literal);
      assert literal + "" == literal;
    }
  }

  lemma {:induction false} DenoteRun(xs: Pieces)
    ensures DenotePieces(xs) == Cross([RunText(xs)], DenotePieces(AfterRun(xs)))
  {
    if xs.Cons? && xs.head.Lit? {
      var x := CharText(xs.head.symbol);
      DenoteRun(xs.tail);
      CrossAssociative([x], [RunText(xs.tail)], DenotePieces(AfterRun(xs)));
      CrossSingle(x, RunText(xs.tail));
    } else {
      CrossUnit(DenotePieces(xs));
    }
  }

  lemma {:induction false} AfterRunPrints(xs: Pieces)
    ensures |PrintPieces(AfterRun(xs))| <= |PrintPieces(xs)|
    ensures xs.Cons? && xs.head.Lit? ==> |PrintPieces(AfterRun(xs))| < |PrintPieces(xs)|
  {
    if xs.Cons? && xs.head.Lit? {
      AfterRunPrints(xs.tail);
    }
  }

  function Opening(capturing: bool): string { if capturing then "(" else "(?:" }

  lemma GroupOpens(capturing: bool, inner: string)
    requires inner == "" || inner[0] != '?'
    ensures var s := Opening(capturing) + inner;
            s != "" && s[0] == '(' && s[if Starts(s, "(?:") then 3 else 1..] == inner
  {
    var s := Opening(capturing) + inner;
    if capturing {
      assert s[1..] == inner;
      NotStarts(s, "(?:", 1);
    } else {
      assert s[3..] == inner;
      assert s[..3] == "(?:";
    }
  }

  lemma {:induction false} GroupReads(x: Piece, rest: string)
    requires x.Group? && ProperPiece(x) && (rest == "" || rest[0] != '?')
    ensures ParseAtom(PrintPiece(x) + rest) == Ok(DenotePiece(x), rest)
    decreases x, 0
  {
    hide ParseAlternation, PrintAlternatives, DenoteAlternatives, Proper, Opening, Starts;
    var s := PrintPiece(x) + rest;
    var tail := (if x.optional then ")?" else ")") + rest;
    var inner := PrintAlternatives(x.body) + tail;
    assert s == Opening(x.capturing) + inner by {
      PrintedGroup(x, rest);
    }
    AlternativesStart(x.body, tail);
    GroupOpens(x.capturing, inner);
    AlternativesRead(x.body, tail);
    if x.optional {
      assert tail[1] == '?' && tail[2..] == rest;
    } else {
      assert tail[1..] == rest;
      assert |tail| > 1 ==> tail[1] == rest[0];
      assert [] + DenoteAlternatives(x.body) == DenoteAlternatives(x.body);
    }
  }

  lemma PrintedGroup(x: Piece, rest: string)
    requires x.Group?
    ensures PrintPiece(x) + rest ==
            Opening(x.capturing) + (PrintAlternatives(x.body) + ((if x.optional then ")?" else ")") + rest))
  {
  }

  lemma {:induction false} PiecesStart(xs: Pieces, rest: string)
    requires ProperPieces(xs, "") && (rest == "" || rest[0] != '?')
    ensures var s := PrintPieces(xs) + rest; s == "" || s[0] != '?'
  {
    if xs.Cons? {
      assert PrintPieces(xs) + rest == PrintPiece(xs.head) + (PrintPieces(xs.tail) + rest);
    } else {
      assert PrintPieces(xs) + rest == rest;
    }
  }

  lemma {:induction false} AlternativesStart(a: Alternatives, rest: string)
    requires Proper(a) && (rest == "" || rest[0] != '?')
    ensures var s := PrintAlternatives(a) + rest; s == "" || s[0] != '?'
  {
    match a
    case One(xs) => PiecesStart(xs, rest);
    case Or(xs, others) =>
      var more := "|" + PrintAlternatives(others) + rest;
      PiecesStart(xs, more);
      assert PrintAlternatives(a) + rest == PrintPieces(xs) + more;
  }

  lemma LiteralAtom(xs: Pieces, rest: string)
    requires ProperPieces(xs, "") && Closes(rest) && xs.Cons? && xs.head.Lit?
    ensures var s := PrintPieces(xs) + rest;
            s != "" && !Closes(s) && ParseAtom(s) == Ok([RunText(xs)], PrintPieces(AfterRun(xs)) + rest)
    ensures ProperPieces(AfterRun(xs), "")
  {
    hide ParseLiteral, Starts, PrintPieces, ProperPieces, AfterRun, RunText;
    var s := PrintPieces(xs) + rest;
    LiteralHead(xs, rest);
    assert !Starts(s, PARAMETER);
    LiteralReads(xs, rest, "");
    AfterRunPrints(xs);
    assert "" + RunText(xs) == RunText(xs);
  }

  lemma LiteralHead(xs: Pieces, rest: string)
    requires ProperPieces(xs, "") && Closes(rest) && xs.Cons? && xs.head.Lit?
    ensures var s := PrintPieces(xs) + rest; s != "" && s[0] != '(' && !Closes(s) && !Starts(s, PARAMETER)
  {
    ClosedRun(xs, rest);
    hide Starts;
    var s := PrintPieces(xs) + rest;
    assert s == PrintPiece(xs.head) + (PrintPieces(xs.tail) + rest);
    assert s[0] == PrintChar(xs.head.symbol)[0];
  }

  lemma ParameterAtom(rest: string)
    ensures var s := PARAMETER + rest; s != "" && !Closes(s) && ParseAtom(s) == Ok(["{}"], rest)
  {
    assert (PARAMETER + rest)[|PARAMETER|..] == rest;
  }

  lemma {:induction false} PiecesRead(xs: Pieces, rest: string, paths: seq<string>)
    requires ProperPieces(xs, "") && Closes(rest)
    ensures ParseConcatenation(PrintPieces(xs) + rest, paths) == Ok(Cross(paths, DenotePieces(xs)), rest)
    decreases xs, 1
  {
    hide ParseAtom, Cross, RunText, PARAMETER;
    var s := PrintPieces(xs) + rest;
    if xs.Nil? {
      assert s == rest;
      CrossUnit(paths);
    } else if xs.head.Lit? {
      LiteralAtom(xs, rest);
      PiecesRead(AfterRun(xs), rest, Cross(paths, [RunText(xs)]));
      DenoteRun(xs);
      CrossAssociative(paths, [RunText(xs)], DenotePieces(AfterRun(xs)));
    } else {
      var x, tail := xs.head, PrintPieces(xs.tail) + rest;
      assert s == PrintPiece(x) + tail;
      if x.Group? {
        PiecesStart(xs.tail, rest);
        GroupReads(x, tail);
        assert s[0] == '(';
      } else {
        ParameterAtom(tail);
      }
      PiecesRead(xs.tail, rest, Cross(paths, DenotePiece(x)));
      CrossAssociative(paths, DenotePiece(x), DenotePieces(xs.tail));
    }
  }

  lemma {:induction false} OptionsRead(a: Alternatives, rest: string, paths: seq<string>)
    requires Proper(a) && (rest == "" || rest[0] == ')')
    ensures ParseOptions("|" + PrintAlternatives(a) + rest, paths) == Ok(paths + DenoteAlternatives(a), rest)
    decreases a, 0
  {
    var s := "|" + PrintAlternatives(a) + rest;
    match a
    case One(xs) =>
      assert s[1..] == PrintPieces(xs) + rest;
      PiecesRead(xs, rest, [""]);
      CrossUnit(DenotePieces(xs));
    case Or(xs, others) =>
      var more := "|" + PrintAlternatives(others) + rest;
      assert s[1..] == PrintPieces(xs) + more;
      PiecesRead(xs, more, [""]);
      CrossUnit(DenotePieces(xs));
      OptionsRead(others, rest, paths + DenotePieces(xs));
      assert paths + DenotePieces(xs) + DenoteAlternatives(others) == paths + DenoteAlternatives(a);
  }

  lemma {:induction false} AlternativesRead(a: Alternatives, rest: string)
    requires Proper(a) && (rest == "" || rest[0] == ')')
    ensures ParseAlternation(PrintAlternatives(a) + rest) == Ok(DenoteAlternatives(a), rest)
    decreases a, 2
  {
    match a
    case One(xs) =>
      PiecesRead(xs, rest, [""]);
      CrossUnit(DenotePieces(xs));
    case Or(xs, others) =>
      var more := "|" + PrintAlternatives(others) + rest;
      assert PrintAlternatives(a) + rest == PrintPieces(xs) + more;
      PiecesRead(xs, more, [""]);
      CrossUnit(DenotePieces(xs));
      OptionsRead(others, rest, DenotePieces(xs));
  }

  /** Expanding the printed form of any syntax tree yields its denoted paths, without the empty ones. */
  lemma ExpandPrinted(a: Alternatives)
    requires Proper(a)
    ensures Expand(PrintAlternatives(a)) == Accepted(NonEmpty(DenoteAlternatives(a)))
  {
    AlternativesRead(a, "");
    assert PrintAlternatives(a) + "" == PrintAlternatives(a);
  }

  // ---- Nothing else is accepted: a syntax tree for every successful parse. ----

  function Append(xs: Pieces, ys: Pieces): Pieces {
    if xs.Nil? then ys else Cons(xs.head, Append(xs.tail, ys))
  }

  lemma {:induction false} AppendPrints(xs: Pieces, ys: Pieces)
    ensures PrintPieces(Append(xs, ys)) == PrintPieces(xs) + PrintPieces(ys)
    ensures DenotePieces(Append(xs, ys)) == Cross(DenotePieces(xs), DenotePieces(ys))
  {
    hide Cross, PrintPiece, DenotePiece;
    if xs.Nil? {
      CrossUnit(DenotePieces(ys));
    } else {
      AppendPrints(xs.tail, ys);
      CrossAssociative(DenotePiece(xs.head), DenotePieces(xs.tail), DenotePieces(ys));
    }
  }

  lemma {:induction false} AppendProper(xs: Pieces, ys: Pieces, after: string)
    requires ProperPieces(xs, PrintPieces(ys) + after) && ProperPieces(ys, after)
    ensures ProperPieces(Append(xs, ys), after)
  {
    hide PrintPiece, ProperPiece, DenotePieces, Starts;
    if xs.Cons? {
      AppendProper(xs.tail, ys, after);
      AppendPrints(xs, ys);
      TextAssoc(PrintPieces(xs), PrintPieces(ys), after);
    }
  }

  lemma {:induction false} ConsLiteral(c: Char, xs: Pieces, text: string)
    requires DenotePieces(xs) == [text]
    ensures DenotePieces(Cons(Lit(c), xs)) == [CharText(c) + text]
  {
    CrossSingle(CharText(c), text);
  }

  lemma TextAssoc(a: string, b: string, c: string)
    ensures a + b + c == a + (b + c)
  {
  }

  function ReadChar(s: string): Char
    requires s != "" && (s[0] == '\\' ==> |s| > 1)
  {
    if s[0] == '\\' then Escaped(s[1]) else if s[0] == '^' || s[0] == '$' then Anchor(s[0]) else Plain(s[0])
  }

  lemma ReadCharStep(s: string, literal: string)
    requires !EndsLiteral(s) && ParseLiteral(s, literal).Ok?
    ensures ProperChar(ReadChar(s))
    ensures var c := ReadChar(s);
            && |s| >= |PrintChar(c)| > 0
            && s == PrintChar(c) + s[|PrintChar(c)|..]
            && ParseLiteral(s, literal) == ParseLiteral(s[|PrintChar(c)|..], literal + CharText(c))
  {
    assert literal + "" == literal;
  }

  lemma {:induction false} LiteralTree(s: string, literal: string) returns (xs: Pieces, text: string)
    requires ParseLiteral(s, literal).Ok?
    ensures s == PrintPieces(xs) + ParseLiteral(s, literal).rest
    ensures DenotePieces(xs) == [text] && ParseLiteral(s, literal).paths == [literal + text]
    ensures ProperPieces(xs, ParseLiteral(s, literal).rest)
    decreases |s|
  {
    hide Cross, PrintChar, CharText, ProperChar;
    if EndsLiteral(s) {
      xs, text := Nil, "";
      assert literal + "" == literal;
    } else {
      assert !Starts(s, PARAMETER);
      hide EndsLiteral, DenotePieces, ParseLiteral, Starts;
      var c := ReadChar(s);
      ReadCharStep(s, literal);
      var tail := s[|PrintChar(c)|..];
      var ys, t := LiteralTree(tail, literal + CharText(c));
      xs, text := Cons(Lit(c), ys), CharText(c) + t;
      ConsLiteral(c, ys, t);
      TextAssoc(literal, CharText(c), t);
      TextAssoc(PrintChar(c), PrintPieces(ys), ParseLiteral(s, literal).rest);
    }
  }

  lemma {:induction false} AtomTree(s: string) returns (xs: Pieces)
    requires s != "" && ParseAtom(s).Ok?
    ensures s == PrintPieces(xs) + ParseAtom(s).rest && ParseAtom(s).paths == DenotePieces(xs)
    ensures ProperPieces(xs, ParseAtom(s).rest)
    decreases |s|, 0
  {
    hide ParseAlternation, ParseLiteral, Cross, PrintAlternatives, DenoteAlternatives;
    if s[0] == '(' {
      var capturing := !Starts(s, "(?:");
      var inner := s[|Opening(capturing)|..];
      assert s == Opening(capturing) + inner;
      var body := AlternationTree(inner);
      var r := ParseAlternation(inner);
      var optional := |r.rest| > 1 && r.rest[1] == '?';
      var x := Group(capturing, body, optional);
      xs := Cons(x, Nil);
      CrossUnit(DenotePiece(x));
      var rest := if optional then r.rest[2..] else r.rest[1..];
      assert r.rest == (if optional then ")?" else ")") + rest;
      PrintedGroup(x, rest);
      assert PrintPieces(xs) == PrintPiece(x) + "" == PrintPiece(x);
      assert [] + DenoteAlternatives(body) == DenoteAlternatives(body);
    } else if Starts(s, PARAMETER) {
      xs := Cons(Param, Nil);
      CrossUnit(["{}"]);
      assert PrintPieces(xs) == PARAMETER + "" == PARAMETER;
      assert s == PARAMETER + s[|PARAMETER|..];
    } else {
      var text;
      xs, text := LiteralTree(s, "");
      assert "" + text == text;
    }
  }

  lemma ConcatenationStops(s: string, paths: seq<string>) returns (xs: Pieces)
    requires Closes(s)
    ensures s == PrintPieces(xs) + s && Cross(paths, DenotePieces(xs)) == paths && ProperPieces(xs, s)
  {
    xs := Nil;
    CrossUnit(paths);
  }

  lemma {:induction false} ConcatenationTree(s: string, paths: seq<string>) returns (xs: Pieces)
    requires ParseConcatenation(s, paths).Ok?
    ensures s == PrintPieces(xs) + ParseConcatenation(s, paths).rest
    ensures ParseConcatenation(s, paths).paths == Cross(paths, DenotePieces(xs))
    ensures ProperPieces(xs, ParseConcatenation(s, paths).rest)
    decreases |s|, 1
  {
    hide ParseAtom, Cross, DenotePieces, PrintPieces, ProperPieces;
    if Closes(s) {
      xs := ConcatenationStops(s, paths);
    } else {
      var next := ParseAtom(s);
      var head := AtomTree(s);
      var tail := ConcatenationTree(next.rest, Cross(paths, next.paths));
      xs := Append(head, tail);
      AppendPrints(head, tail);
      AppendProper(head, tail, ParseConcatenation(s, paths).rest);
      TextAssoc(PrintPieces(head), PrintPieces(tail), ParseConcatenation(s, paths).rest);
      CrossAssociative(paths, DenotePieces(head), DenotePieces(tail));
    }
  }

  lemma {:induction false} OptionsTree(s: string, paths: seq<string>) returns (a: Alternatives)
    requires s != "" && s[0] == '|' && ParseOptions(s, paths).Ok?
    ensures s == "|" + PrintAlternatives(a) + ParseOptions(s, paths).rest
    ensures ParseOptions(s, paths).paths == paths + DenoteAlternatives(a)
    ensures Proper(a)
    decreases |s|, 3
  {
    hide ParseConcatenation, DenotePieces, PrintPieces, ProperPieces;
    var option := ParseConcatenation(s[1..], [""]);
    var xs := ConcatenationTree(s[1..], [""]);
    ProperWithout(xs, option.rest);
    CrossUnit(DenotePieces(xs));
    assert s == "|" + s[1..];
    var r := option.rest;
    if r == "" || r[0] != '|' {
      a := One(xs);
      TextAssoc("|", PrintPieces(xs), r);
    } else {
      var others := OptionsTree(r, paths + option.paths);
      a := Or(xs, others);
      var end := ParseOptions(s, paths).rest;
      TextAssoc("|" + PrintPieces(xs), "|" + PrintAlternatives(others), end);
      TextAssoc("|", PrintPieces(xs), r);
      assert "|" + PrintPieces(xs) + ("|" + PrintAlternatives(others)) == "|" + PrintAlternatives(a);
      Assoc(paths, DenotePieces(xs), DenoteAlternatives(others));
    }
  }

  lemma {:induction false} AlternationTree(s: string) returns (a: Alternatives)
    requires ParseAlternation(s).Ok?
    ensures s == PrintAlternatives(a) + ParseAlternation(s).rest
    ensures ParseAlternation(s).paths == DenoteAlternatives(a)
    ensures Proper(a)
    decreases |s|, 4
  {
    hide ParseConcatenation, DenotePieces, PrintPieces, ProperPieces;
    var option := ParseConcatenation(s, [""]);
    var xs := ConcatenationTree(s, [""]);
    ProperWithout(xs, option.rest);
    CrossUnit(DenotePieces(xs));
    var r := option.rest;
    if r == "" || r[0] != '|' {
      a := One(xs);
    } else {
      var others := OptionsTree(r, option.paths);
      a := Or(xs, others);
    }
  }

  /** A pattern is accepted only if it is, to its last character, the printed form of a tree denoting the result. */
  lemma AcceptedIsPrinted(pattern: string) returns (a: Alternatives)
    requires Expand(pattern).Accepted?
    ensures Proper(a) && PrintAlternatives(a) == pattern
    ensures Expand(pattern).paths == NonEmpty(DenoteAlternatives(a))
  {
    a := AlternationTree(pattern);
    assert PrintAlternatives(a) + "" == PrintAlternatives(a);
  }

  /** A pattern is accepted exactly when it is the printed form of some proper tree. */
  lemma AcceptedIffPrinted(pattern: string)
    ensures Expand(pattern).Accepted? <==> exists a: Alternatives :: Proper(a) && PrintAlternatives(a) == pattern
  {
    if Expand(pattern).Accepted? {
      var a := AcceptedIsPrinted(pattern);
    }
    if a: Alternatives :| Proper(a) && PrintAlternatives(a) == pattern {
      ExpandPrinted(a);
    }
  }

  // ---- Which error a pattern meets. ----

  /** A group that is not closed. */
  lemma UnclosedGroupReported(s: string)
    requires Expand(s).Accepted? && !Starts(s, "?:")
    ensures Expand("(" + s) == Rejected(UnclosedGroup)
  {
    var t := "(" + s;
    assert t[1..] == s;
    assert !Starts(t, "(?:");
    assert ParseAlternation(s).Ok? && ParseAlternation(s).rest == "";
    assert ParseAtom(t) == Error(UnclosedGroup);
    assert !Closes(t);
    assert ParseConcatenation(t, [""]) == Error(UnclosedGroup);
  }

  /** A quantifier with nothing before it, and a parenthesis with nothing to close. */
  lemma StrayReported(s: string)
    ensures Expand("?" + s) == Rejected(Stuck)
    ensures Expand(")" + s) == Rejected(Unparsed)
  {
    var q, p := "?" + s, ")" + s;
    NotStarts(q, PARAMETER, 0);
    assert EndsLiteral(q) && !Closes(q) && Closes(p);
    assert ParseLiteral(q, "") == Ok([""], q);
    assert ParseAtom(q) == Error(Stuck);
    assert ParseConcatenation(q, [""]) == Error(Stuck);
    assert ParseConcatenation(p, [""]) == Ok([""], p);
    assert ParseOptions(p, [""]) == Ok([""], p);
  }

  predicate Unremarkable(c: char) { c !in "()|?[\\^$" }

  /** An escape at the very end. */
  lemma DanglingEscapeReported(s: string)
    requires forall i :: 0 <= i < |s| ==> Unremarkable(s[i])
    ensures Expand(s + "\\") == Rejected(DanglingEscape)
  {
    var t := s + "\\";
    LiteralDangles(s, "");
    NotStarts(t, PARAMETER, 0);
    assert t[0] == if s == "" then '\\' else s[0];
    assert ParseAtom(t) == Error(DanglingEscape);
    assert !Closes(t);
    assert ParseConcatenation(t, [""]) == Error(DanglingEscape);
  }

  lemma {:induction false} LiteralDangles(s: string, literal: string)
    requires forall i :: 0 <= i < |s| ==> Unremarkable(s[i])
    ensures ParseLiteral(s + "\\", literal) == Error(DanglingEscape)
  {
    var t := s + "\\";
    if s == "" {
      NotStarts(t, PARAMETER, 0);
    } else {
      LiteralDangles(s[1..], literal + [s[0]]);
      assert t[1..] == s[1..] + "\\" && t[0] == s[0];
      assert Unremarkable(t[0]);
      NotStarts(t, PARAMETER, 0);
    }
  }
}
