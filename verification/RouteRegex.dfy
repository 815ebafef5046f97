/**
 The regular expressions that `_append` emits: their parts, how they are written, and a
 reader that finds the parts in the text again, so that what an expression matches is a
 matter of its text alone.
 */
module RouteRegex {
  import opened Messages
  import opened RouteScanner
  import opened RouteGrammar

  /** What stands in a named group: one of the three defaults, or an expression given in the route. */
  datatype Kind = Segment | Suffix | Anything | Custom(expression: string)

  /** One character; `(?P<name>...)`; and `(?:\.(?P<name>...))??`. */
  datatype Regex = Char(c: char) | Named(name: string, kind: Kind) | Dotted(name: string, kind: Kind)

  function KindText(kind: Kind): string {
    match kind
    case Segment => "[^/]+?"
    case Suffix => "[^/.]+?"
    case Anything => ".+?"
    case Custom(expression) => expression
  }

  function KindOf(text: string): (kind: Kind)
    ensures KindText(kind) == text
  {
    if text == "[^/]+?" then Segment
    else if text == "[^/.]+?" then Suffix
    else if text == ".+?" then Anything
    else Custom(text)
  }

  function PrintRegex(r: Regex): string {
    match r
    case Char(c) => EscapeChar(c)
    case Named(name, kind) => Group(name, KindText(kind))
    case Dotted(name, kind) => "(?:\\." + Group(name, KindText(kind)) + ")??"
  }

  function PrintRegexes(rs: seq<Regex>): string {
    if rs == [] then "" else PrintRegex(rs[0]) + PrintRegexes(rs[1..])
  }

  lemma {:induction false} PrintRegexesAppend(a: seq<Regex>, b: seq<Regex>)
    ensures PrintRegexes(a + b) == PrintRegexes(a) + PrintRegexes(b)
  {
    if a == [] {
      assert a + b == b;
    } else {
      var whole := a + b;
      assert whole[0] == a[0] && whole[1..] == a[1..] + b;
      calc {
        PrintRegexes(whole);
        PrintRegex(a[0]) + PrintRegexes(a[1..] + b);
        { PrintRegexesAppend(a[1..], b); }
        PrintRegex(a[0]) + (PrintRegexes(a[1..]) + PrintRegexes(b));
        { Assoc(PrintRegex(a[0]), PrintRegexes(a[1..]), PrintRegexes(b)); }
        PrintRegexes(a) + PrintRegexes(b);
      }
    }
  }

  // ----- the expressions of a route

  function Chars(text: string): seq<Regex> {
    if text == "" then [] else [Char(text[0])] + Chars(text[1..])
  }

  /** The expression that a part of a route asks for. */
  function RegexOf(p: Part): seq<Regex> {
    match p
    case Lit(text) => Chars(text)
    case Bare(star, name) => [Named(name, if star then Anything else Segment)]
    case Paren(star, name) => [Named(name, if star then Anything else Segment)]
    case Brace(dotted, name, req) =>
      if dotted then [Dotted(name, if req != "" then KindOf(req) else Suffix)]
      else [Named(name, if req != "" then KindOf(req) else Segment)]
  }

  function RegexesOf(ps: seq<Part>): seq<Regex> {
    if ps == [] then [] else RegexOf(ps[0]) + RegexesOf(ps[1..])
  }

  lemma {:induction false} CharsPrint(text: string)
    ensures PrintRegexes(Chars(text)) == Escape(text)
  {
    if text == "" {
    } else {
      CharsPrint(text[1..]);
      assert Chars(text)[0] == Char(text[0]) && Chars(text)[1..] == Chars(text[1..]);
    }
  }

  lemma PartPrints(p: Part)
    ensures PrintRegexes(RegexOf(p)) == Compile(p)
  {
    if p.Lit? {
      CharsPrint(p.text);
    } else {
      var r := RegexOf(p)[0];
      assert RegexOf(p) == [r] && [r][1..] == [];
      assert PrintRegexes([r]) == PrintRegex(r) + "" == PrintRegex(r);
    }
  }

  /** What the scanner puts out for a route is the text of these expressions. */
  lemma {:induction false} RoutePrints(ps: seq<Part>)
    ensures PrintRegexes(RegexesOf(ps)) == CompileAll(ps)
  {
    if ps == [] {
    } else {
      PartPrints(ps[0]);
      RoutePrints(ps[1..]);
      PrintRegexesAppend(RegexOf(ps[0]), RegexesOf(ps[1..]));
    }
  }

  // ----- reading

  predicate Plain(c: char) {
    'a' <= c <= 'z' || 'A' <= c <= 'Z' || '0' <= c <= '9' || c == '_'
  }

  /** What `re` takes for the name of a group. */
  predicate Identifier(name: string) {
    name != "" && !('0' <= name[0] <= '9') && forall i :: 0 <= i < |name| ==> Plain(name[i])
  }

  function NameEnd(t: string): (j: nat)
    ensures j <= |t|
  {
    if t == "" || !Plain(t[0]) then 0 else 1 + NameEnd(t[1..])
  }

  /** The place of the parenthesis that closes a group whose inside begins here, or the length if there is none. */
  function Closing(t: string, depth: nat): (j: nat)
    ensures j <= |t|
    ensures j < |t| ==> t[j] == ')'
  {
    if t == "" || (t[0] == ')' && depth == 0) then 0
    else if t[0] == '\\' && |t| > 1 then 2 + Closing(t[2..], depth)
    else 1 + Closing(t[1..], if t[0] == '(' then depth + 1 else if t[0] == ')' then depth - 1 else depth)
  }

  const GROUP := "(?P<"
  const DOTTED := "(?:\\."

  /** The name and the inside of the group in front, and what follows it. */
  function ReadGroup(t: string): (group: Option<(string, string, string)>)
    ensures group.Some? ==> |group.value.2| < |t|
  {
    if !(GROUP <= t) then None
    else
      var body := t[|GROUP|..];
      var n := NameEnd(body);
      if !Identifier(body[..n]) || n == |body| || body[n] != '>' then None
      else
        var inside := body[n + 1..];
        var m := Closing(inside, 0);
        if m == |inside| then None else Some((body[..n], inside[..m], inside[m + 1..]))
  }

  /** The expression in front, and what follows it. */
  function ReadOne(t: string): (one: Option<(Regex, string)>)
    ensures one.Some? ==> |one.value.1| < |t|
  {
    if t == "" then None
    else if DOTTED <= t then
      match ReadGroup(t[|DOTTED|..])
      case None => None
      case Some((name, inside, rest)) =>
        if ")??" <= rest then Some((Dotted(name, KindOf(inside)), rest[3..])) else None
    else if t[0] == '(' then
      match ReadGroup(t)
      case None => None
      case Some((name, inside, rest)) => Some((Named(name, KindOf(inside)), rest))
    else if t[0] == '\\' then
      if |t| > 1 && !Plain(t[1]) then Some((Char(t[1]), t[2..])) else None
    else if Plain(t[0]) then Some((Char(t[0]), t[1..]))
    else None
  }

  /** The expressions that a text consists of, if it is one that `_append` emits. */
  function Read(t: string): Option<seq<Regex>>
    decreases |t|
  {
    if t == "" then Some([])
    else match ReadOne(t)
      case None => None
      case Some((r, rest)) =>
        match Read(rest)
        case None => None
        case Some(rs) => Some([r] + rs)
  }

  // ----- reading back what was printed

  /** An expression that ends with the parenthesis of its group and not before. */
  predicate Balanced(text: string) {
    Closing(text + ")", 0) == |text|
  }

  predicate Readable(r: Regex) {
    r.Char? || (Identifier(r.name) && Balanced(KindText(r.kind)) && KindOf(KindText(r.kind)) == r.kind)
  }

  /** The names are identifiers, and a given expression has its parentheses in pairs, save for escaped ones. */
  predicate PartReadable(p: Part) {
    p.Lit? || (Identifier(p.name) && (p.Brace? && p.req != "" ==> Balanced(p.req)))
  }

  predicate RouteReadable(ps: seq<Part>) {
    forall p :: p in ps ==> PartReadable(p)
  }

  lemma {:induction false} NoParenthesis(text: string)
    requires Without(text, "()\\")
    ensures Balanced(text)
  {
    if text == "" {
      assert text + ")" == ")";
    } else {
      NoParenthesis(text[1..]);
      assert (text + ")")[0] == text[0] && (text + ")")[1..] == text[1..] + ")";
    }
  }

  lemma {:induction false} ClosingStays(a: string, b: string, depth: nat)
    requires Closing(a, depth) < |a|
    ensures Closing(a + b, depth) == Closing(a, depth)
    decreases |a|
  {
    assert (a + b)[0] == a[0];
    if a[0] == ')' && depth == 0 {
    } else if a[0] == '\\' && |a| > 1 {
      assert (a + b)[2..] == a[2..] + b;
      ClosingStays(a[2..], b, depth);
    } else {
      assert (a + b)[1..] == a[1..] + b;
      ClosingStays(a[1..], b, if a[0] == '(' then depth + 1 else if a[0] == ')' then depth - 1 else depth);
    }
  }

  lemma {:induction false} NameEnds(name: string, rest: string)
    requires (forall i :: 0 <= i < |name| ==> Plain(name[i])) && rest != "" && !Plain(rest[0])
    ensures NameEnd(name + rest) == |name|
  {
    if name == "" {
      assert name + rest == rest;
    } else {
      assert (name + rest)[0] == name[0] && (name + rest)[1..] == name[1..] + rest;
      NameEnds(name[1..], rest);
    }
  }

  lemma ClosesThere(inside: string, rest: string)
    requires Balanced(inside)
    ensures var t := inside + (")" + rest);
            Closing(t, 0) == |inside| < |t| && t[..|inside|] == inside && t[|inside| + 1..] == rest
  {
    ClosingStays(inside + ")", rest, 0);
    Assoc(inside, ")", rest);
  }

  /** A group is read as it was written. */
  lemma GroupReads(name: string, inside: string, rest: string)
    requires Identifier(name) && Balanced(inside)
    ensures ReadGroup(Group(name, inside) + rest) == Some((name, inside, rest))
  {
    var t := Group(name, inside) + rest;
    var tail := inside + (")" + rest);
    var body := name + (">" + tail);
    assert t == GROUP + body;
    assert t[|GROUP|..] == body;
    NameEnds(name, ">" + tail);
    assert body[..|name|] == name && body[|name| + 1..] == tail;
    ClosesThere(inside, rest);
  }

  lemma NamedReads(name: string, kind: Kind, rest: string)
    requires Readable(Named(name, kind))
    ensures ReadOne(Group(name, KindText(kind)) + rest) == Some((Named(name, kind), rest))
  {
    var t := Group(name, KindText(kind)) + rest;
    GroupReads(name, KindText(kind), rest);
    assert t[0] == '(' && t[2] == 'P' && DOTTED[2] == ':';
  }

  lemma DottedReads(name: string, kind: Kind, rest: string)
    requires Readable(Dotted(name, kind))
    ensures ReadOne(DOTTED + (Group(name, KindText(kind)) + (")??" + rest))) == Some((Dotted(name, kind), rest))
  {
    var tail := Group(name, KindText(kind)) + (")??" + rest);
    GroupReads(name, KindText(kind), ")??" + rest);
    assert (DOTTED + tail)[|DOTTED|..] == tail;
    assert (")??" + rest)[3..] == rest;
  }

  lemma OneReads(r: Regex, rest: string)
    requires Readable(r)
    ensures ReadOne(PrintRegex(r) + rest) == Some((r, rest))
  {
    match r
    case Char(c) => CharReads(c, rest);
    case Named(name, kind) => NamedReads(name, kind, rest);
    case Dotted(name, kind) =>
      var group := Group(name, KindText(kind));
      DottedReads(name, kind, rest);
      Assoc(DOTTED + group, ")??", rest);
      Assoc(DOTTED, group, ")??" + rest);
  }

  lemma CharReads(c: char, rest: string)
    ensures ReadOne(EscapeChar(c) + rest) == Some((Char(c), rest))
  {
    var t := EscapeChar(c) + rest;
    assert t[0] != '(' && DOTTED[0] == '(';
    if Plain(c) {
      assert t[1..] == rest;
    } else {
      assert t[1] == c && t[2..] == rest;
    }
  }

  lemma {:induction false} RegexesRead(rs: seq<Regex>)
    requires forall r :: r in rs ==> Readable(r)
    ensures Read(PrintRegexes(rs)) == Some(rs)
  {
    if rs == [] {
    } else {
      RegexesRead(rs[1..]);
      OneReads(rs[0], PrintRegexes(rs[1..]));
      assert rs == [rs[0]] + rs[1..];
    }
  }

  lemma {:induction false} CharsReadable(text: string)
    ensures forall r :: r in Chars(text) ==> Readable(r)
  {
    if text == "" {
    } else {
      CharsReadable(text[1..]);
    }
  }

  lemma PartIsReadable(p: Part)
    requires PartReadable(p)
    ensures forall r :: r in RegexOf(p) ==> Readable(r)
  {
    if p.Lit? {
      CharsReadable(p.text);
    } else {
      NoParenthesis("[^/]+?");
      NoParenthesis("[^/.]+?");
      NoParenthesis(".+?");
      if p.Brace? && p.req != "" {
        assert KindText(KindOf(p.req)) == p.req;
      }
    }
  }

  lemma {:induction false} RouteIsReadable(ps: seq<Part>)
    requires RouteReadable(ps)
    ensures forall r :: r in RegexesOf(ps) ==> Readable(r)
  {
    if ps == [] {
    } else {
      PartIsReadable(ps[0]);
      RouteIsReadable(ps[1..]);
    }
  }

  /** The expression of a route is read back as the one its parts ask for. */
  lemma ExpressionReadsBack(ps: seq<Part>)
    requires RouteReadable(ps)
    ensures Read(CompileAll(ps)) == Some(RegexesOf(ps))
  {
    RouteIsReadable(ps);
    RegexesRead(RegexesOf(ps));
    RoutePrints(ps);
  }
}
