/**
 What the expressions of routes match. `Match` is the backtracking of a lazy matcher over
 the forms that `_append` emits, anchored at both ends, and `MatchText` applies it to the
 text of an expression; `Fill` puts captured values back into a route. Paths contain no
 newline at their end; an expression given as `{x:req}` is an opaque language.
 */
module RouteMatching {
  import opened Messages
  import opened RouteScanner
  import opened RouteGrammar
  import opened RouteRegex

  /** The values of the named groups; a skipped optional group has none. */
  type Groups = map<string, Option<string>>

  /** Which strings a given expression matches. */
  type Language = (string, string) -> bool

  /** Which strings the inside of a group matches. */
  predicate Admits(lang: Language, kind: Kind, s: string) {
    match kind
    case Segment => s != "" && '/' !in s
    case Suffix => s != "" && '/' !in s && '.' !in s
    case Anything => s != "" && '\n' !in s
    case Custom(expression) => lang(expression, s)
  }

  /** The matcher: characters must be there, an optional group is first left out, and every group is tried shortest first. */
  function Match(lang: Language, rs: seq<Regex>, path: string): Option<Groups>
    decreases |rs|, 1, 0
  {
    if rs == [] then
      if path == "" then Some(map[]) else None
    else match rs[0]
      case Char(c) =>
        if path != "" && path[0] == c then Match(lang, rs[1..], path[1..]) else None
      case Named(_, _) => Try(lang, rs, path, 0)
      case Dotted(name, _) =>
        match Match(lang, rs[1..], path)
        case Some(groups) => Some(groups[name := None])
        case None => if path != "" && path[0] == '.' then Try(lang, rs, path[1..], 0) else None
  }

  /** Matches the group in front with the first `n` or more characters of the path. */
  function Try(lang: Language, rs: seq<Regex>, path: string, n: nat): Option<Groups>
    requires rs != [] && !rs[0].Char?
    decreases |rs|, 0, |path| + 1 - n
  {
    if n > |path| then None
    else if Admits(lang, rs[0].kind, path[..n]) then
      match Match(lang, rs[1..], path[n..])
      case Some(groups) => Some(groups[rs[0].name := Some(path[..n])])
      case None => Try(lang, rs, path, n + 1)
    else
      Try(lang, rs, path, n + 1)
  }

  /** `re.compile('^...$').match(path)` for the texts that `_append` emits. */
  function MatchText(lang: Language, expression: string, path: string): Option<Groups> {
    if |expression| < 2 || expression[0] != '^' || expression[|expression| - 1] != '$' then None
    else match Read(expression[1..|expression| - 1])
      case None => None
      case Some(rs) => Match(lang, rs, path)
  }

  // ----- putting values back

  /** The route with its variables replaced by values. */
  function Fill(ps: seq<Part>, groups: Groups): string {
    if ps == [] then "" else FillPart(ps[0], groups) + Fill(ps[1..], groups)
  }

  function FillPart(p: Part, groups: Groups): string {
    if p.Lit? then p.text
    else if p.name !in groups || groups[p.name].None? then ""
    else (if p.Brace? && p.dotted then "." else "") + groups[p.name].value
  }

  /** The same for the expressions. */
  function Expand(rs: seq<Regex>, groups: Groups): string {
    if rs == [] then "" else ExpandOne(rs[0], groups) + Expand(rs[1..], groups)
  }

  function ExpandOne(r: Regex, groups: Groups): string {
    if r.Char? then [r.c]
    else if r.name !in groups || groups[r.name].None? then ""
    else (if r.Dotted? then "." else "") + groups[r.name].value
  }

  /** Values that the expressions admit: one for every group, of its kind; only an optional group may have none. */
  predicate Fits(lang: Language, rs: seq<Regex>, groups: Groups) {
    rs == [] || (FitsOne(lang, rs[0], groups) && Fits(lang, rs[1..], groups))
  }

  predicate FitsOne(lang: Language, r: Regex, groups: Groups) {
    r.Char?
    || (r.name in groups
        && match groups[r.name]
           case None => r.Dotted?
           case Some(value) => Admits(lang, r.kind, value))
  }

  /** Values that a route admits. */
  predicate Admissible(lang: Language, ps: seq<Part>, groups: Groups) {
    Fits(lang, RegexesOf(ps), groups)
  }

  function GroupNames(rs: seq<Regex>): set<string> {
    if rs == [] then {} else (if rs[0].Char? then {} else {rs[0].name}) + GroupNames(rs[1..])
  }

  predicate DistinctGroups(rs: seq<Regex>) {
    rs == [] || ((rs[0].Char? || rs[0].name !in GroupNames(rs[1..])) && DistinctGroups(rs[1..]))
  }

  // ----- what a match means

  /** Giving a value to a name that does not occur changes nothing. */
  lemma {:induction false} OtherName(lang: Language, rs: seq<Regex>, groups: Groups, name: string, value: Option<string>)
    requires name !in GroupNames(rs)
    ensures Expand(rs, groups[name := value]) == Expand(rs, groups)
    ensures Fits(lang, rs, groups[name := value]) == Fits(lang, rs, groups)
  {
    if rs == [] {
    } else {
      OtherName(lang, rs[1..], groups, name, value);
    }
  }

  /** What it means that some captures are right for a path. */
  predicate Captures(lang: Language, rs: seq<Regex>, path: string, groups: Groups) {
    Fits(lang, rs, groups) && Expand(rs, groups) == path && groups.Keys == GroupNames(rs)
  }

  /** A value for the group in front, and sound captures for what follows. */
  lemma TakesValue(lang: Language, rs: seq<Regex>, inner: Groups, value: string, rest: string)
    requires rs != [] && !rs[0].Char? && DistinctGroups(rs) && Admits(lang, rs[0].kind, value)
    requires Captures(lang, rs[1..], rest, inner)
    ensures Captures(lang, rs, (if rs[0].Dotted? then "." else "") + (value + rest), inner[rs[0].name := Some(value)])
  {
    OtherName(lang, rs[1..], inner, rs[0].name, Some(value));
    Assoc(if rs[0].Dotted? then "." else "", value, rest);
  }

  lemma TakesChar(lang: Language, rs: seq<Regex>, path: string, groups: Groups)
    requires rs != [] && rs[0].Char? && path != "" && path[0] == rs[0].c && Captures(lang, rs[1..], path[1..], groups)
    ensures Captures(lang, rs, path, groups)
  {
    assert path == [rs[0].c] + path[1..];
  }

  lemma TakesNothing(lang: Language, rs: seq<Regex>, path: string, inner: Groups)
    requires rs != [] && rs[0].Dotted? && DistinctGroups(rs) && Captures(lang, rs[1..], path, inner)
    ensures Captures(lang, rs, path, inner[rs[0].name := None])
  {
    OtherName(lang, rs[1..], inner, rs[0].name, None);
    assert "" + path == path;
  }

  /** Captured values, put back, give the path that was matched, and they are of the kinds asked for. */
  lemma {:induction false} MatchIsSound(lang: Language, rs: seq<Regex>, path: string)
    requires DistinctGroups(rs) && Match(lang, rs, path).Some?
    ensures Captures(lang, rs, path, Match(lang, rs, path).value)
    decreases |rs|, 1, 0
  {
    if rs == [] {
    } else if rs[0].Char? {
      MatchIsSound(lang, rs[1..], path[1..]);
      TakesChar(lang, rs, path, Match(lang, rs, path).value);
    } else if rs[0].Dotted? && Match(lang, rs[1..], path).Some? {
      MatchIsSound(lang, rs[1..], path);
      TakesNothing(lang, rs, path, Match(lang, rs[1..], path).value);
    } else if rs[0].Dotted? {
      TryIsSound(lang, rs, path[1..], 0);
      assert path == "." + path[1..];
    } else {
      TryIsSound(lang, rs, path, 0);
      assert "" + path == path;
    }
  }

  lemma {:induction false} TryIsSound(lang: Language, rs: seq<Regex>, path: string, n: nat)
    requires rs != [] && !rs[0].Char? && DistinctGroups(rs) && Try(lang, rs, path, n).Some?
    ensures Captures(lang, rs, (if rs[0].Dotted? then "." else "") + path, Try(lang, rs, path, n).value)
    decreases |rs|, 0, |path| + 1 - n
  {
    if Admits(lang, rs[0].kind, path[..n]) && Match(lang, rs[1..], path[n..]).Some? {
      MatchIsSound(lang, rs[1..], path[n..]);
      TakesValue(lang, rs, Match(lang, rs[1..], path[n..]).value, path[..n], path[n..]);
      assert path == path[..n] + path[n..];
    } else {
      TryIsSound(lang, rs, path, n + 1);
    }
  }

  /** Whatever values are admitted, the path they expand to is matched. */
  lemma {:induction false} ExpandIsMatched(lang: Language, rs: seq<Regex>, groups: Groups)
    requires Fits(lang, rs, groups)
    ensures Match(lang, rs, Expand(rs, groups)).Some?
    decreases |rs|
  {
    if rs == [] {
    } else {
      ExpandIsMatched(lang, rs[1..], groups);
      var rest := Expand(rs[1..], groups);
      if rs[0].Char? {
        assert ([rs[0].c] + rest)[1..] == rest;
      } else if groups[rs[0].name].None? {
        assert "" + rest == rest;
      } else {
        ValueIsMatched(lang, rs, groups[rs[0].name].value, rest);
      }
    }
  }

  lemma ValueIsMatched(lang: Language, rs: seq<Regex>, value: string, rest: string)
    requires rs != [] && !rs[0].Char? && Admits(lang, rs[0].kind, value) && Match(lang, rs[1..], rest).Some?
    ensures Match(lang, rs, ((if rs[0].Dotted? then "." else "") + value) + rest).Some?
  {
    TryFinds(lang, rs, value, rest, 0);
    if rs[0].Dotted? {
      Assoc(".", value, rest);
      assert ("." + (value + rest))[1..] == value + rest;
    } else {
      assert "" + value == value;
    }
  }

  lemma {:induction false} TryFinds(lang: Language, rs: seq<Regex>, value: string, rest: string, n: nat)
    requires rs != [] && !rs[0].Char? && n <= |value|
    requires Admits(lang, rs[0].kind, value) && Match(lang, rs[1..], rest).Some?
    ensures Try(lang, rs, value + rest, n).Some?
    decreases |value| - n
  {
    var path := value + rest;
    if n == |value| {
      assert path[..n] == value && path[n..] == rest;
    } else {
      TryFinds(lang, rs, value, rest, n + 1);
    }
  }

  // ----- routes

  lemma {:induction false} ExpandAppend(a: seq<Regex>, b: seq<Regex>, groups: Groups)
    ensures Expand(a + b, groups) == Expand(a, groups) + Expand(b, groups)
  {
    if a == [] {
      assert a + b == b;
    } else {
      var whole := a + b;
      assert whole[0] == a[0] && whole[1..] == a[1..] + b;
      calc {
        Expand(whole, groups);
        ExpandOne(a[0], groups) + Expand(a[1..] + b, groups);
        { ExpandAppend(a[1..], b, groups); }
        ExpandOne(a[0], groups) + (Expand(a[1..], groups) + Expand(b, groups));
        { Assoc(ExpandOne(a[0], groups), Expand(a[1..], groups), Expand(b, groups)); }
        Expand(a, groups) + Expand(b, groups);
      }
    }
  }

  lemma {:induction false} CharsExpand(text: string, groups: Groups)
    ensures Expand(Chars(text), groups) == text && GroupNames(Chars(text)) == {}
  {
    if text == "" {
    } else {
      CharsExpand(text[1..], groups);
      assert text == [text[0]] + text[1..];
    }
  }

  /** A route with values is what its expressions expand to. */
  lemma {:induction false} FillIsExpand(ps: seq<Part>, groups: Groups)
    ensures Fill(ps, groups) == Expand(RegexesOf(ps), groups)
  {
    if ps == [] {
    } else {
      FillIsExpand(ps[1..], groups);
      ExpandAppend(RegexOf(ps[0]), RegexesOf(ps[1..]), groups);
      if ps[0].Lit? {
        CharsExpand(ps[0].text, groups);
      } else {
        assert Expand(RegexOf(ps[0]), groups) == ExpandOne(RegexOf(ps[0])[0], groups) + "";
      }
    }
  }

  lemma {:induction false} GroupNamesAppend(a: seq<Regex>, b: seq<Regex>)
    ensures GroupNames(a + b) == GroupNames(a) + GroupNames(b)
    ensures DistinctGroups(a) && DistinctGroups(b) && GroupNames(a) !! GroupNames(b) ==> DistinctGroups(a + b)
  {
    if a == [] {
      assert a + b == b;
    } else {
      GroupNamesAppend(a[1..], b);
      assert (a + b)[0] == a[0] && (a + b)[1..] == a[1..] + b;
    }
  }

  lemma {:induction false} CharsDistinct(text: string)
    ensures DistinctGroups(Chars(text))
  {
    if text == "" {
    } else {
      CharsDistinct(text[1..]);
    }
  }

  /** The groups of a route's expressions are its variables. */
  lemma {:induction false} RouteNames(ps: seq<Part>)
    ensures GroupNames(RegexesOf(ps)) == Names(ps)
    ensures Distinct(ps) ==> DistinctGroups(RegexesOf(ps))
  {
    if ps == [] {
    } else {
      RouteNames(ps[1..]);
      GroupNamesAppend(RegexOf(ps[0]), RegexesOf(ps[1..]));
      if ps[0].Lit? {
        CharsExpand(ps[0].text, map[]);
        CharsDistinct(ps[0].text);
      }
    }
  }

  /** Matching a route and filling it invert each other as far as the path goes. */
  lemma RouteMatchedExactly(lang: Language, ps: seq<Part>, path: string)
    requires Distinct(ps)
    ensures Match(lang, RegexesOf(ps), path).Some? <==> exists groups :: Admissible(lang, ps, groups) && Fill(ps, groups) == path
    ensures Match(lang, RegexesOf(ps), path).Some? ==>
              var groups := Match(lang, RegexesOf(ps), path).value;
              Admissible(lang, ps, groups) && Fill(ps, groups) == path && groups.Keys == Names(ps)
  {
    RouteNames(ps);
    if Match(lang, RegexesOf(ps), path).Some? {
      MatchIsSound(lang, RegexesOf(ps), path);
      FillIsExpand(ps, Match(lang, RegexesOf(ps), path).value);
    }
    forall groups | Admissible(lang, ps, groups) && Fill(ps, groups) == path ensures Match(lang, RegexesOf(ps), path).Some? {
      FillIsExpand(ps, groups);
      ExpandIsMatched(lang, RegexesOf(ps), groups);
    }
  }

  /** The text of a route's expression, and what it matches. */
  lemma ExpressionMatches(lang: Language, ps: seq<Part>, path: string)
    requires WellFormed(ps) && RouteReadable(ps)
    ensures RegexPath(PrintAll(ps)).Ok?
    ensures MatchText(lang, RegexPath(PrintAll(ps)).value, path) == Match(lang, RegexesOf(ps), path)
  {
    RouteRoundTrip(ps);
    ExpressionReadsBack(ps);
    var expression := RegexPath(PrintAll(ps)).value;
    assert expression[1..|expression| - 1] == CompileAll(ps);
  }

  /**
   The expression that `regexpath` makes of a route matches a path if and only if the path
   is the route with admissible values in it, and the captures are such values.
   */
  lemma MatchedExactly(lang: Language, ps: seq<Part>, path: string)
    requires WellFormed(ps) && RouteReadable(ps)
    ensures RegexPath(PrintAll(ps)).Ok?
    ensures var result := MatchText(lang, RegexPath(PrintAll(ps)).value, path);
            && (result.Some? <==> exists groups :: Admissible(lang, ps, groups) && Fill(ps, groups) == path)
            && (result.Some? ==> Admissible(lang, ps, result.value) && Fill(ps, result.value) == path && result.value.Keys == Names(ps))
  {
    ExpressionMatches(lang, ps, path);
    RouteMatchedExactly(lang, ps, path);
  }
}
