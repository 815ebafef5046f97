/**
 The grammar of routes, and the proof that the scanner implements it: scanning a printed
 list of literals and variables yields the regular expression of that list. Since the
 scanner is back in its neutral state at every `/` that joins two routes, the expression
 of a nested resource is that of its ancestors followed by its own.
 */
module RouteGrammar {
  import opened Messages
  import opened RouteScanner

  /** `:x` and `*x`, `:(x)` and `*(x)`, and `{x}`, `{.x}`, `{x:req}` and `{.x:req}`. */
  datatype Part =
    | Lit(text: string)
    | Bare(star: bool, name: string)
    | Paren(star: bool, name: string)
    | Brace(dotted: bool, name: string, req: string)

  function Print(p: Part): string {
    match p
    case Lit(text) => text
    case Bare(star, name) => (if star then "*" else ":") + name
    case Paren(star, name) => (if star then "*(" else ":(") + name + ")"
    case Brace(dotted, name, req) => "{" + Inside(dotted, name, req) + "}"
  }

  /** What stands between the braces. */
  function Inside(dotted: bool, name: string, req: string): string {
    (if dotted then "." else "") + Spec(name, req)
  }

  function Spec(name: string, req: string): string {
    if req != "" then name + ":" + req else name
  }

  function PrintAll(ps: seq<Part>): string {
    if ps == [] then "" else Print(ps[0]) + PrintAll(ps[1..])
  }

  /** The regular expression of a part. */
  function Compile(p: Part): string {
    match p
    case Lit(text) => Escape(text)
    case Bare(star, name) => Group(name, if star then ".+?" else "[^/]+?")
    case Paren(star, name) => Group(name, if star then ".+?" else "[^/]+?")
    case Brace(dotted, name, req) =>
      if dotted then "(?:\\." + Group(name, if req != "" then req else "[^/.]+?") + ")??"
      else Group(name, if req != "" then req else "[^/]+?")
  }

  function CompileAll(ps: seq<Part>): string {
    if ps == [] then "" else Compile(ps[0]) + CompileAll(ps[1..])
  }

  predicate Without(s: string, chars: string) {
    forall i :: 0 <= i < |s| ==> s[i] !in chars
  }

  predicate PartOk(p: Part) {
    match p
    case Lit(text) => Without(text, ":*{")
    case Bare(_, name) => name != "" && name[0] != '(' && Without(name[1..], DONE_CHARS + "-")
    case Paren(_, name) => Without(name, ")")
    case Brace(dotted, name, req) =>
      name != "" && Without(name, "}:") && Without(req, "}:") && (!dotted ==> name[0] != '.')
  }

  /** A bare variable ends the route or is followed by a character that ends it and is kept. */
  predicate Delimited(ps: seq<Part>) {
    forall i :: 0 <= i < |ps| - 1 && ps[i].Bare? ==> ps[i + 1].Lit? && ps[i + 1].text != "" && ps[i + 1].text[0] in DONE_CHARS
  }

  function Names(ps: seq<Part>): set<string> {
    if ps == [] then {} else (if ps[0].Lit? then {} else {ps[0].name}) + Names(ps[1..])
  }

  predicate Distinct(ps: seq<Part>) {
    ps == [] || ((ps[0].Lit? || ps[0].name !in Names(ps[1..])) && Distinct(ps[1..]))
  }

  predicate WellFormed(ps: seq<Part>) {
    && (forall p :: p in ps ==> PartOk(p))
    && Delimited(ps)
    && Distinct(ps)
  }

  lemma Assoc(a: string, b: string, c: string)
    ensures (a + b) + c == a + (b + c)
  {
  }

  // ----- scanning one part

  predicate Neutral(sc: Scanner) {
    !sc.collecting && !sc.justStarted
  }

  /** What a scanner in its neutral state has put out. */
  function Out(sc: Scanner): string {
    Join(sc.regparts) + Escape(sc.current)
  }

  /** Characters that start nothing are collected as literal text. */
  lemma {:induction false} ScanLit(sc: Scanner, text: string)
    requires Neutral(sc) && Without(text, ":*{")
    ensures Scan(sc, text) == Ok(sc.(current := sc.current + text))
    decreases |text|
  {
    if text == "" {
      assert sc.current + text == sc.current;
    } else {
      var sc' := sc.(current := sc.current + [text[0]]);
      assert Step(sc, text[0]) == Ok(sc');
      ScanLit(sc', text[1..]);
      assert sc'.current + text[1..] == sc.current + text;
    }
  }

  /** Characters that do not end the variable are collected as its name. */
  lemma {:induction false} ScanName(sc: Scanner, name: string)
    requires sc.collecting && !sc.justStarted && Without(name, sc.doneOn)
    ensures Scan(sc, name) == Ok(sc.(current := sc.current + name))
    decreases |name|
  {
    if name == "" {
      assert sc.current + name == sc.current;
    } else {
      var sc' := sc.(current := sc.current + [name[0]]);
      assert Step(sc, name[0]) == Ok(sc');
      ScanName(sc', name[1..]);
      assert sc'.current + name[1..] == sc.current + name;
    }
  }

  /** The state after the character that opens a variable. */
  function Opened(sc: Scanner, c: char): Scanner {
    sc.(justStarted := c != '{', collecting := true, varType := [c],
        doneOn := if c == '{' then "}" else sc.doneOn,
        regparts := if sc.current != "" then sc.regparts + [Escape(sc.current)] else sc.regparts,
        current := "")
  }

  lemma OpenedOut(sc: Scanner, c: char)
    ensures Join(Opened(sc, c).regparts) == Out(sc)
  {
    if sc.current != "" {
      JoinAppend(sc.regparts, [Escape(sc.current)]);
      assert Join([Escape(sc.current)]) == Escape(sc.current) by {
        assert Escape(sc.current) + "" == Escape(sc.current);
      }
    } else {
      assert Out(sc) == Join(sc.regparts) + "";
    }
  }

  /** The state in which the name of a bare variable has been read. */
  function Named(sc: Scanner, star: bool, name: string): Scanner {
    Opened(sc, if star then '*' else ':').(justStarted := false, current := name, doneOn := DONE_CHARS + "-")
  }

  lemma ScanBare(sc: Scanner, star: bool, name: string)
    requires Neutral(sc) && PartOk(Bare(star, name))
    ensures Scan(sc, Print(Bare(star, name))) == Ok(Named(sc, star, name))
  {
    var c := if star then '*' else ':';
    var sc1 := Opened(sc, c);
    var sc2 := sc1.(justStarted := false, current := [name[0]], doneOn := DONE_CHARS + "-");
    var text := Print(Bare(star, name));
    assert text[0] == c && text[1..] == name;
    assert Step(sc, c) == Ok(sc1) && Step(sc1, name[0]) == Ok(sc2);
    ScanName(sc2, name[1..]);
    assert [name[0]] + name[1..] == name;
    assert Scan(sc, text) == Scan(sc1, name) == Scan(sc2, name[1..]);
  }

  function OpeningChar(p: Part): char
    requires !p.Lit?
  {
    if p.Brace? then '{' else if p.star then '*' else ':'
  }

  /** The state after a variable was closed; `kept` is the character that ended it, if it belongs to the route. */
  function Closed(sc: Scanner, p: Part, reqs: map<string, string>, kept: Option<char>): Scanner
    requires !p.Lit?
  {
    var regparts := Opened(sc, OpeningChar(p)).regparts + [Compile(p)];
    Scanner(false, "", "", "", false, reqs, if kept.Some? then regparts + [Escape([kept.value])] else regparts)
  }

  lemma JoinOne(a: seq<string>, b: string)
    ensures Join(a + [b]) == Join(a) + b
  {
    JoinAppend(a, [b]);
    assert Join([b]) == b + "" == b;
  }

  lemma ClosedOut(sc: Scanner, p: Part, reqs: map<string, string>, kept: Option<char>)
    requires !p.Lit?
    ensures Out(Closed(sc, p, reqs, kept)) == Out(sc) + Compile(p) + if kept.Some? then Escape([kept.value]) else ""
  {
    var regparts := Opened(sc, OpeningChar(p)).regparts;
    OpenedOut(sc, OpeningChar(p));
    JoinOne(regparts, Compile(p));
    if kept.Some? {
      JoinOne(regparts + [Compile(p)], Escape([kept.value]));
    }
    var closed := Closed(sc, p, reqs, kept);
    assert Out(closed) == Join(closed.regparts) + "" == Join(closed.regparts);
  }

  /** The type the scanner finds for a variable. */
  function VarType(p: Part): string
    requires !p.Lit?
  {
    match p
    case Lit(_) => ""
    case Bare(star, _) => if star then "*" else ":"
    case Paren(star, _) => if star then "*" else ":"
    case Brace(dotted, _, _) => if dotted then "." else ":"
  }

  lemma AppendCompiles(p: Part, reqs: map<string, string>)
    requires !p.Lit?
    requires if p.Brace? && p.req != "" then Get(reqs, p.name) == Some(p.req) else p.name !in reqs
    ensures AppendVar(VarType(p), p.name, Get(reqs, p.name)) == Ok(Compile(p))
  {
  }

  /** The character that ends a bare variable is kept, unless it is a dash. */
  lemma CloseBare(sc: Scanner, p: Part, d: char)
    requires Neutral(sc) && p.Bare? && PartOk(p) && p.name !in sc.reqs && d in DONE_CHARS + "-"
    ensures Step(Named(sc, p.star, p.name), d) == Ok(Closed(sc, p, sc.reqs, if d != '-' then Some(d) else None))
  {
    AppendCompiles(p, sc.reqs);
    var sc1 := Named(sc, p.star, p.name);
    assert Step(sc1, d) == CloseVar(sc1, d);
    assert d in DONE_CHARS <==> d != '-';
  }

  lemma CloseParen(sc: Scanner, p: Part)
    requires Neutral(sc) && p.Paren? && p.name !in sc.reqs
    ensures var sc3 := Opened(sc, OpeningChar(p)).(justStarted := false, doneOn := ")", current := p.name);
            Scan(sc3, ")") == Ok(Closed(sc, p, sc.reqs, None))
  {
    AppendCompiles(p, sc.reqs);
    var sc3 := Opened(sc, OpeningChar(p)).(justStarted := false, doneOn := ")", current := p.name);
    assert Step(sc3, ')') == CloseVar(sc3, ')');
    assert Scan(sc3, ")") == Step(sc3, ')');
  }

  lemma ScanParen(sc: Scanner, p: Part)
    requires Neutral(sc) && p.Paren? && PartOk(p) && p.name !in sc.reqs
    ensures Scan(sc, Print(p)) == Ok(Closed(sc, p, sc.reqs, None))
  {
    var c := OpeningChar(p);
    var sc1 := Opened(sc, c);
    var sc2 := sc1.(justStarted := false, doneOn := ")");
    var text := Print(p);
    assert text[0] == c && text[1..][0] == '(' && text[1..][1..] == p.name + ")";
    assert Step(sc, c) == Ok(sc1) && Step(sc1, '(') == Ok(sc2);
    ScanName(sc2, p.name);
    assert sc2.current + p.name == p.name;
    ScanAppend(sc2, p.name, ")");
    CloseParen(sc, p);
  }

  /** `split(':')` of a name and its expression. */
  lemma {:induction false} SplitSpec(name: string, req: string)
    requires Without(name, "}:") && Without(req, "}:")
    ensures Split(Spec(name, req), ':') == if req != "" then [name, req] else [name]
  {
    if req == "" {
      NoColon(name);
    } else if name == "" {
      NoColon(req);
      assert Spec(name, req)[0] == ':' && Spec(name, req)[1..] == req;
    } else {
      SplitSpec(name[1..], req);
      SpecFirst(name, req);
      SplitFirst(Spec(name, req));
      assert [name[0]] + name[1..] == name;
      assert [name[1..], req][1..] == [req];
    }
  }

  lemma SplitFirst(s: string)
    requires s != "" && s[0] != ':'
    ensures Split(s, ':') == [[s[0]] + Split(s[1..], ':')[0]] + Split(s[1..], ':')[1..]
  {
    assert s == [s[0]] + s[1..];
  }

  lemma NoColon(s: string)
    requires Without(s, "}:")
    ensures Split(s, ':') == [s]
  {
  }

  lemma SpecFirst(name: string, req: string)
    requires name != "" && req != "" && Without(name, "}:")
    ensures Spec(name, req) != "" && Spec(name, req)[0] == name[0] != ':' && Spec(name, req)[1..] == Spec(name[1..], req)
  {
  }

  function ReqsAfter(p: Part, reqs: map<string, string>): map<string, string> {
    if p.Brace? && p.req != "" then reqs[p.name := p.req] else reqs
  }

  lemma InsideBraces(p: Part)
    requires p.Brace? && PartOk(p)
    ensures var inside := Inside(p.dotted, p.name, p.req);
            && inside != "" && (inside[0] == '.' <==> p.dotted)
            && (if p.dotted then inside[1..] else inside) == Spec(p.name, p.req)
            && Without(inside, "}")
  {
    var inside := Inside(p.dotted, p.name, p.req);
    assert !p.dotted ==> inside == Spec(p.name, p.req) && inside[0] == p.name[0];
  }

  /** Closing braces around a name and perhaps an expression. */
  lemma CloseInside(sc: Scanner, dotted: bool, spec: string, reqs: map<string, string>, part: string)
    requires sc.varType == "{" && sc.current != "" && (sc.current[0] == '.' <==> dotted)
    requires (if dotted then sc.current[1..] else sc.current) == spec
    requires var opts := Split(spec, ':');
             && reqs == (if |opts| > 1 then sc.reqs[opts[0] := opts[1]] else sc.reqs)
             && AppendVar(if dotted then "." else ":", opts[0], Get(reqs, opts[0])) == Ok(part)
    ensures CloseVar(sc, '}') == Ok(Scanner(false, "", "", "", sc.justStarted, reqs, sc.regparts + [part]))
  {
  }

  lemma CloseBrace(sc: Scanner, p: Part)
    requires Neutral(sc) && p.Brace? && PartOk(p) && p.name !in sc.reqs
    ensures Scan(Opened(sc, '{').(current := Inside(p.dotted, p.name, p.req)), "}")
            == Ok(Closed(sc, p, ReqsAfter(p, sc.reqs), None))
  {
    var sc2 := Opened(sc, '{').(current := Inside(p.dotted, p.name, p.req));
    InsideBraces(p);
    BraceOptions(p, sc.reqs);
    CloseInside(sc2, p.dotted, Spec(p.name, p.req), ReqsAfter(p, sc.reqs), Compile(p));
    StepAtEnd(sc2, '}');
  }

  /** A character on which the variable ends, at the end of a text. */
  lemma StepAtEnd(sc: Scanner, c: char)
    requires sc.collecting && !sc.justStarted && c in sc.doneOn
    ensures Scan(sc, [c]) == CloseVar(sc, c)
  {
    assert Step(sc, c) == CloseVar(sc, c);
    assert [c][1..] == "";
  }

  /** The name and the expression between braces, and what they compile to. */
  lemma BraceOptions(p: Part, reqs: map<string, string>)
    requires p.Brace? && PartOk(p) && p.name !in reqs
    ensures var opts := Split(Spec(p.name, p.req), ':');
            && opts[0] == p.name
            && (if |opts| > 1 then reqs[opts[0] := opts[1]] else reqs) == ReqsAfter(p, reqs)
    ensures AppendVar(VarType(p), p.name, Get(ReqsAfter(p, reqs), p.name)) == Ok(Compile(p))
  {
    SplitSpec(p.name, p.req);
    AppendCompiles(p, ReqsAfter(p, reqs));
  }

  lemma ScanBrace(sc: Scanner, p: Part)
    requires Neutral(sc) && p.Brace? && PartOk(p) && p.name !in sc.reqs
    ensures Scan(sc, Print(p)) == Ok(Closed(sc, p, ReqsAfter(p, sc.reqs), None))
  {
    var inside := Inside(p.dotted, p.name, p.req);
    var sc1 := Opened(sc, '{');
    var text := Print(p);
    assert text[0] == '{' && text[1..] == inside + "}";
    assert Step(sc, '{') == Ok(sc1);
    InsideBraces(p);
    ScanName(sc1, inside);
    assert sc1.current + inside == inside;
    ScanAppend(sc1, inside, "}");
    CloseBrace(sc, p);
  }

  // ----- scanning a route

  /** From `sc` with `ps` ahead the scanner gets to `sc'` with `rest` ahead, and the output so far agrees. */
  ghost predicate Moves(sc: Scanner, ps: seq<Part>, sc': Scanner, rest: seq<Part>) {
    && |rest| < |ps|
    && Neutral(sc') && WellFormed(rest) && Names(rest) !! sc'.reqs.Keys
    && Scan(sc, PrintAll(ps)) == Scan(sc', PrintAll(rest))
    && Out(sc') + CompileAll(rest) == Out(sc) + CompileAll(ps)
  }

  lemma WellFormedTail(ps: seq<Part>)
    requires WellFormed(ps) && ps != []
    ensures PartOk(ps[0]) && WellFormed(ps[1..])
  {
    assert ps[0] in ps;
    assert forall p :: p in ps[1..] ==> p in ps;
  }

  /** A literal or a variable in parentheses or braces. */
  lemma MovesPart(sc: Scanner, ps: seq<Part>, sc': Scanner)
    requires WellFormed(ps) && ps != [] && Neutral(sc') && Names(ps[1..]) !! sc'.reqs.Keys
    requires Scan(sc, Print(ps[0])) == Ok(sc')
    requires Out(sc') == Out(sc) + Compile(ps[0])
    ensures Moves(sc, ps, sc', ps[1..])
  {
    WellFormedTail(ps);
    ScanAppend(sc, Print(ps[0]), PrintAll(ps[1..]));
    Assoc(Out(sc), Compile(ps[0]), CompileAll(ps[1..]));
  }

  lemma MovesLit(sc: Scanner, ps: seq<Part>)
    requires Neutral(sc) && WellFormed(ps) && Names(ps) !! sc.reqs.Keys && ps != [] && ps[0].Lit?
    ensures Moves(sc, ps, sc.(current := sc.current + ps[0].text), ps[1..])
  {
    WellFormedTail(ps);
    var text := ps[0].text;
    ScanLit(sc, text);
    EscapeAppend(sc.current, text);
    Assoc(Join(sc.regparts), Escape(sc.current), Escape(text));
    MovesPart(sc, ps, sc.(current := sc.current + text));
  }

  lemma MovesVar(sc: Scanner, ps: seq<Part>)
    requires Neutral(sc) && WellFormed(ps) && Names(ps) !! sc.reqs.Keys && ps != [] && (ps[0].Paren? || ps[0].Brace?)
    ensures Moves(sc, ps, Closed(sc, ps[0], ReqsAfter(ps[0], sc.reqs), None), ps[1..])
  {
    WellFormedTail(ps);
    var p := ps[0];
    assert p.name in Names(ps);
    if p.Paren? {
      ScanParen(sc, p);
    } else {
      ScanBrace(sc, p);
    }
    ClosedOut(sc, p, ReqsAfter(p, sc.reqs), None);
    assert Out(sc) + Compile(p) + "" == Out(sc) + Compile(p);
    MovesPart(sc, ps, Closed(sc, p, ReqsAfter(p, sc.reqs), None));
  }

  /** A route without its first variable and the character that ends it. */
  function AfterBare(ps: seq<Part>): seq<Part>
    requires |ps| >= 2 && ps[1].Lit? && ps[1].text != ""
  {
    [Lit(ps[1].text[1..])] + ps[2..]
  }

  lemma AfterBareWellFormed(ps: seq<Part>)
    requires WellFormed(ps) && |ps| >= 2 && ps[0].Bare? && ps[1].Lit? && ps[1].text != ""
    ensures WellFormed(AfterBare(ps)) && Names(AfterBare(ps)) == Names(ps[1..])
  {
    var next := AfterBare(ps);
    WellFormedTail(ps);
    WellFormedTail(ps[1..]);
    assert next[1..] == ps[2..] == ps[1..][1..];
    forall i | 0 <= i < |next| - 1 && next[i].Bare?
      ensures next[i + 1].Lit? && next[i + 1].text != "" && next[i + 1].text[0] in DONE_CHARS
    {
      assert next[i] == ps[i + 1] && next[i + 1] == ps[i + 2];
    }
  }

  lemma AfterBareText(ps: seq<Part>)
    requires |ps| >= 2 && ps[1].Lit? && ps[1].text != ""
    ensures PrintAll(ps[1..]) == [ps[1].text[0]] + PrintAll(AfterBare(ps))
    ensures CompileAll(ps[1..]) == Escape([ps[1].text[0]]) + CompileAll(AfterBare(ps))
  {
    var text := ps[1].text;
    var d := [text[0]];
    assert ps[1..][1..] == ps[2..] && AfterBare(ps)[1..] == ps[2..];
    assert text == d + text[1..];
    EscapeAppend(d, text[1..]);
    Assoc(Escape(d), Escape(text[1..]), CompileAll(ps[2..]));
    Assoc(d, text[1..], PrintAll(ps[2..]));
  }

  lemma ScanBareThen(sc: Scanner, p: Part, d: char, rest: string)
    requires Neutral(sc) && p.Bare? && PartOk(p) && p.name !in sc.reqs && d in DONE_CHARS + "-"
    ensures Scan(sc, Print(p) + ([d] + rest)) == Scan(Closed(sc, p, sc.reqs, if d != '-' then Some(d) else None), rest)
  {
    ScanBare(sc, p.star, p.name);
    ScanAppend(sc, Print(p), [d] + rest);
    CloseBare(sc, p, d);
    assert ([d] + rest)[0] == d && ([d] + rest)[1..] == rest;
  }

  /** A bare variable, and the character that ends it. */
  lemma MovesBare(sc: Scanner, ps: seq<Part>)
    requires Neutral(sc) && WellFormed(ps) && Names(ps) !! sc.reqs.Keys && |ps| >= 2 && ps[0].Bare?
    ensures ps[1].Lit? && ps[1].text != ""
    ensures Moves(sc, ps, Closed(sc, ps[0], sc.reqs, Some(ps[1].text[0])), AfterBare(ps))
  {
    WellFormedTail(ps);
    AfterBareWellFormed(ps);
    AfterBareText(ps);
    var p := ps[0];
    var d := ps[1].text[0];
    assert p.name in Names(ps);
    ScanBareThen(sc, p, d, PrintAll(AfterBare(ps)));
    ClosedOut(sc, p, sc.reqs, Some(d));
    Assoc(Out(sc) + Compile(p), Escape([d]), CompileAll(AfterBare(ps)));
    Assoc(Out(sc), Compile(p), Escape([d]) + CompileAll(AfterBare(ps)));
  }

  /** Whether scanning on from `sc` succeeds and puts out `out` in all. */
  ghost predicate Yields(sc: Scanner, text: string, out: string) {
    && Scan(sc, text).Ok?
    && Finish(Scan(sc, text).value).Ok?
    && Join(Finish(Scan(sc, text).value).value) == out
  }

  lemma YieldsAtEnd(sc: Scanner)
    requires Neutral(sc)
    ensures Yields(sc, "", Out(sc))
  {
    OpenedOut(sc, ':');
  }

  lemma YieldsLastBare(sc: Scanner, p: Part)
    requires Neutral(sc) && p.Bare? && PartOk(p) && p.name !in sc.reqs
    ensures Yields(sc, Print(p), Out(sc) + Compile(p))
  {
    ScanBare(sc, p.star, p.name);
    OpenedOut(sc, OpeningChar(p));
    AppendCompiles(p, sc.reqs);
    JoinOne(Opened(sc, OpeningChar(p)).regparts, Compile(p));
  }

  /**
   Scanning a printed well-formed route from a neutral state puts out the expression of
   the route after what was put out before.
   */
  lemma {:induction false} ScanRoute(sc: Scanner, ps: seq<Part>)
    requires Neutral(sc) && WellFormed(ps) && Names(ps) !! sc.reqs.Keys
    ensures Yields(sc, PrintAll(ps), Out(sc) + CompileAll(ps))
    decreases |ps|
  {
    if ps == [] {
      YieldsAtEnd(sc);
      assert Out(sc) + "" == Out(sc);
    } else if ps[0].Lit? {
      MovesLit(sc, ps);
      ScanRoute(sc.(current := sc.current + ps[0].text), ps[1..]);
    } else if !ps[0].Bare? {
      MovesVar(sc, ps);
      ScanRoute(Closed(sc, ps[0], ReqsAfter(ps[0], sc.reqs), None), ps[1..]);
    } else if |ps| == 1 {
      assert ps[0] in ps && ps[0].name in Names(ps);
      YieldsLastBare(sc, ps[0]);
      assert PrintAll(ps) == Print(ps[0]) + "" == Print(ps[0]);
      assert CompileAll(ps) == Compile(ps[0]) + "" == Compile(ps[0]);
    } else {
      MovesBare(sc, ps);
      ScanRoute(Closed(sc, ps[0], sc.reqs, Some(ps[1].text[0])), AfterBare(ps));
    }
  }

  /** The scanner implements the grammar: a printed route scans to the expression of its parts. */
  lemma RouteRoundTrip(ps: seq<Part>)
    requires WellFormed(ps)
    ensures Tokens(PrintAll(ps)).Ok?
    ensures Join(Tokens(PrintAll(ps)).value) == CompileAll(ps)
  {
    StartYields(ps);
    YieldsTokens(PrintAll(ps), CompileAll(ps));
  }

  lemma StartYields(ps: seq<Part>)
    requires WellFormed(ps)
    ensures Yields(START, PrintAll(ps), CompileAll(ps))
  {
    NothingOut();
    ScanRoute(START, ps);
    assert "" + CompileAll(ps) == CompileAll(ps);
  }

  lemma NothingOut()
    ensures Neutral(START) && START.reqs.Keys == {} && Out(START) == ""
  {
  }

  lemma YieldsTokens(text: string, out: string)
    requires Yields(START, text, out)
    ensures Tokens(text).Ok? && Join(Tokens(text).value) == out
  {
  }

  // ----- composition

  lemma {:induction false} PrintAppend(a: seq<Part>, b: seq<Part>)
    ensures PrintAll(a + b) == PrintAll(a) + PrintAll(b)
  {
    if a == [] {
      assert a + b == b;
    } else {
      var whole := a + b;
      assert whole[0] == a[0] && whole[1..] == a[1..] + b;
      calc {
        PrintAll(whole);
        Print(a[0]) + PrintAll(a[1..] + b);
        { PrintAppend(a[1..], b); }
        Print(a[0]) + (PrintAll(a[1..]) + PrintAll(b));
        { Assoc(Print(a[0]), PrintAll(a[1..]), PrintAll(b)); }
        PrintAll(a) + PrintAll(b);
      }
    }
  }

  lemma {:induction false} CompileAppend(a: seq<Part>, b: seq<Part>)
    ensures CompileAll(a + b) == CompileAll(a) + CompileAll(b)
  {
    if a == [] {
      assert a + b == b;
    } else {
      var whole := a + b;
      assert whole[0] == a[0] && whole[1..] == a[1..] + b;
      calc {
        CompileAll(whole);
        Compile(a[0]) + CompileAll(a[1..] + b);
        { CompileAppend(a[1..], b); }
        Compile(a[0]) + (CompileAll(a[1..]) + CompileAll(b));
        { Assoc(Compile(a[0]), CompileAll(a[1..]), CompileAll(b)); }
        CompileAll(a) + CompileAll(b);
      }
    }
  }

  lemma {:induction false} NamesAppend(a: seq<Part>, b: seq<Part>)
    ensures Names(a + b) == Names(a) + Names(b)
  {
    if a == [] {
      assert a + b == b;
    } else {
      NamesAppend(a[1..], b);
      assert (a + b)[1..] == a[1..] + b && (a + b)[0] == a[0];
    }
  }

  lemma {:induction false} DistinctAppend(a: seq<Part>, b: seq<Part>)
    requires Distinct(a) && Distinct(b) && Names(a) !! Names(b)
    ensures Distinct(a + b)
  {
    if a == [] {
      assert a + b == b;
    } else {
      NamesAppend(a[1..], b);
      DistinctAppend(a[1..], b);
      assert (a + b)[1..] == a[1..] + b && (a + b)[0] == a[0];
    }
  }

  /** Two routes joined by a slash. */
  function Under(p: seq<Part>, q: seq<Part>): seq<Part> {
    p + [Lit("/")] + q
  }

  lemma UnderText(p: seq<Part>, q: seq<Part>)
    ensures PrintAll(Under(p, q)) == PrintAll(p) + "/" + PrintAll(q)
    ensures CompileAll(Under(p, q)) == CompileAll(p) + Escape("/") + CompileAll(q)
  {
    PrintAppend(p + [Lit("/")], q);
    PrintAppend(p, [Lit("/")]);
    CompileAppend(p + [Lit("/")], q);
    CompileAppend(p, [Lit("/")]);
    assert PrintAll([Lit("/")]) == "/" + "" == "/";
    assert CompileAll([Lit("/")]) == Escape("/") + "" == Escape("/");
  }

  lemma UnderDelimited(p: seq<Part>, q: seq<Part>)
    requires Delimited(p) && Delimited(q)
    ensures Delimited(Under(p, q))
  {
    var r := Under(p, q);
    forall i | 0 <= i < |r| - 1 && r[i].Bare?
      ensures r[i + 1].Lit? && r[i + 1].text != "" && r[i + 1].text[0] in DONE_CHARS
    {
      if i < |p| - 1 {
        assert r[i] == p[i] && r[i + 1] == p[i + 1];
      } else if i > |p| {
        assert r[i] == q[i - |p| - 1] && r[i + 1] == q[i - |p|];
      }
    }
  }

  lemma UnderWellFormed(p: seq<Part>, q: seq<Part>)
    requires WellFormed(p) && WellFormed(q) && Names(p) !! Names(q)
    ensures WellFormed(Under(p, q)) && Names(Under(p, q)) == Names(p) + Names(q)
  {
    UnderDelimited(p, q);
    NamesAppend(p + [Lit("/")], q);
    NamesAppend(p, [Lit("/")]);
    DistinctAppend(p, [Lit("/")]);
    DistinctAppend(p + [Lit("/")], q);
    forall x | x in Under(p, q) ensures PartOk(x) {
      assert x in p || x == Lit("/") || x in q;
    }
  }

  /**
   The expression of `p/q` is that of `p`, an escaped slash, and that of `q`: a nested
   resource matches what its ancestors match, followed by what it matches itself.
   */
  lemma NestedRoutes(p: seq<Part>, q: seq<Part>)
    requires WellFormed(p) && WellFormed(q) && Names(p) !! Names(q)
    ensures var whole := Tokens(PrintAll(p) + "/" + PrintAll(q));
            && whole.Ok? && Tokens(PrintAll(p)).Ok? && Tokens(PrintAll(q)).Ok?
            && Join(whole.value) == Join(Tokens(PrintAll(p)).value) + Escape("/") + Join(Tokens(PrintAll(q)).value)
  {
    UnderWellFormed(p, q);
    UnderText(p, q);
    RouteRoundTrip(p);
    RouteRoundTrip(q);
    RouteRoundTrip(Under(p, q));
  }

  /**
   A bare variable ends at any of `/ , ; . # -`, and the rest of the route is scanned from
   the same neutral state; but the character itself is part of the expression exactly
   when it is not the dash. `:a-:b` means the same as `:(a):b`.
   */
  lemma DashIsDropped(sc: Scanner, p: Part, d: char, rest: string)
    requires Neutral(sc) && p.Bare? && PartOk(p) && p.name !in sc.reqs && d in DONE_CHARS + "-"
    ensures var sc' := Closed(sc, p, sc.reqs, if d != '-' then Some(d) else None);
            && Scan(sc, Print(p) + [d] + rest) == Scan(sc', rest)
            && (Out(sc') == Out(sc) + Compile(p) + Escape([d]) <==> d != '-')
  {
    var kept := if d != '-' then Some(d) else None;
    Assoc(Print(p), [d], rest);
    ScanBareThen(sc, p, d, rest);
    ClosedOut(sc, p, sc.reqs, kept);
    assert |Escape([d])| > 0 by {
      assert Escape([d]) == EscapeChar(d) + "";
    }
    assert |Out(sc) + Compile(p) + ""| < |Out(sc) + Compile(p) + Escape([d])|;
  }

  /** What a bare variable puts out. */
  function BareText(star: bool, name: string): string {
    "(?P<" + name + ">" + (if star then ".+?" else "[^/]+?") + ")"
  }

  /**
   Where a bare variable ends, character by character: at `/ , ; . #`, which belong to the
   route, and at `-`, which does not; any other character is one more of the name.
   */
  lemma BareVariableEnds(sc: Scanner, star: bool, name: string, d: char, rest: string)
    requires Neutral(sc) && name != "" && name[0] != '(' && name !in sc.reqs
    requires forall i :: 0 <= i < |name| ==>
               name[i] != '/' && name[i] != ',' && name[i] != ';' && name[i] != '.' && name[i] != '#' && name[i] != '-'
    ensures var text := (if star then "*" else ":") + name + [d] + rest;
            if d == '/' || d == ',' || d == ';' || d == '.' || d == '#' then
              exists sc' :: Neutral(sc') && Scan(sc, text) == Scan(sc', rest) && Out(sc') == Out(sc) + BareText(star, name) + Escape([d])
            else if d == '-' then
              exists sc' :: Neutral(sc') && Scan(sc, text) == Scan(sc', rest) && Out(sc') == Out(sc) + BareText(star, name)
            else
              exists sc': Scanner :: sc'.collecting && sc'.current == name + [d] && Join(sc'.regparts) == Out(sc) && Scan(sc, text) == Scan(sc', rest)
  {
    var p := Bare(star, name);
    assert PartOk(p);
    assert BareText(star, name) == Compile(p);
    Assoc(Print(p), [d], rest);
    if d in DONE_CHARS + "-" {
      var kept := if d != '-' then Some(d) else None;
      ScanBareThen(sc, p, d, rest);
      ClosedOut(sc, p, sc.reqs, kept);
      assert Out(sc) + Compile(p) + "" == Out(sc) + Compile(p);
      assert Neutral(Closed(sc, p, sc.reqs, kept));
    } else {
      var sc1 := Named(sc, star, name);
      var sc2 := sc1.(current := name + [d]);
      ScanBare(sc, star, name);
      ScanAppend(sc, Print(p), [d] + rest);
      OpenedOut(sc, OpeningChar(p));
      assert Step(sc1, d) == Ok(sc2);
      assert ([d] + rest)[0] == d && ([d] + rest)[1..] == rest;
      assert sc2.collecting && sc2.current == name + [d] && Join(sc2.regparts) == Out(sc);
    }
  }

  /** A parenthesis that is never closed is closed by the end of the route. */
  lemma OpenParenthesis(sc: Scanner, star: bool, name: string)
    requires Neutral(sc) && name !in sc.reqs && Without(name, ")")
    ensures var text := (if star then "*" else ":") + "(" + name;
            Yields(sc, text, Out(sc) + BareText(star, name)) && Yields(sc, text + ")", Out(sc) + BareText(star, name))
  {
    var p := Paren(star, name);
    var c := OpeningChar(p);
    var text := [c] + "(" + name;
    var sc1 := Opened(sc, c);
    var sc2 := sc1.(justStarted := false, doneOn := ")");
    assert BareText(star, name) == Compile(p);
    assert text[0] == c && text[1..][0] == '(' && text[1..][1..] == name;
    assert Step(sc, c) == Ok(sc1) && Step(sc1, '(') == Ok(sc2);
    ScanName(sc2, name);
    assert sc2.current + name == name;
    assert Scan(sc, text) == Ok(sc2.(current := name));
    OpenedOut(sc, c);
    AppendCompiles(p, sc.reqs);
    JoinOne(sc1.regparts, Compile(p));
    assert text + ")" == Print(p);
    ScanParen(sc, p);
    ClosedOut(sc, p, sc.reqs, None);
    OpenedOut(Closed(sc, p, sc.reqs, None), ':');
    assert Out(sc) + Compile(p) + "" == Out(sc) + Compile(p);
  }

  /** Braces around some text that does not begin with a dot. */
  lemma ScanBraces(sc: Scanner, inside: string, reqs: map<string, string>, part: string)
    requires Neutral(sc) && inside != "" && inside[0] != '.' && Without(inside, "}")
    requires var opts := Split(inside, ':');
             && reqs == (if |opts| > 1 then sc.reqs[opts[0] := opts[1]] else sc.reqs)
             && AppendVar(":", opts[0], Get(reqs, opts[0])) == Ok(part)
    ensures Scan(sc, "{" + (inside + "}")) == Ok(Scanner(false, "", "", "", false, reqs, Opened(sc, '{').regparts + [part]))
  {
    var sc1 := Opened(sc, '{');
    var sc2 := sc1.(current := inside);
    ScanName(sc1, inside);
    assert sc1.current + inside == inside;
    ScanAppend(sc1, inside, "}");
    assert ("{" + (inside + "}"))[1..] == inside + "}";
    assert Step(sc, '{') == Ok(sc1);
    CloseInside(sc2, false, inside, reqs, part);
    StepAtEnd(sc2, '}');
  }

  /** An expression ends at its first colon; what follows up to the brace is dropped. */
  lemma SecondColonCuts(sc: Scanner, name: string, req: string, more: string)
    requires Neutral(sc) && name != "" && name[0] != '.'
    requires Without(name, "}:") && req != "" && Without(req, "}:") && Without(more, "}")
    ensures Scan(sc, "{" + ((name + ":" + req + ":" + more) + "}")) == Scan(sc, "{" + ((name + ":" + req) + "}"))
  {
    var reqs := sc.reqs[name := req];
    assert AppendVar(":", name, Get(reqs, name)) == Ok(Group(name, req));
    SplitThree(name, req, more);
    SplitSpec(name, req);
    assert Spec(name, req) == name + ":" + req;
    ScanBraces(sc, name + ":" + req + ":" + more, reqs, Group(name, req));
    ScanBraces(sc, name + ":" + req, reqs, Group(name, req));
  }

  lemma {:induction false} SplitThree(name: string, req: string, more: string)
    requires Without(name, "}:") && Without(req, "}:")
    ensures var parts := Split(name + ":" + req + ":" + more, ':');
            |parts| > 2 && parts[0] == name && parts[1] == req
  {
    var whole := name + ":" + req + ":" + more;
    if name == "" {
      assert whole[0] == ':' && whole[1..] == req + ":" + more;
      SplitTwo(req, more);
    } else {
      SplitThree(name[1..], req, more);
      assert whole[0] == name[0] && whole[1..] == name[1..] + ":" + req + ":" + more;
      SplitFirst(whole);
      assert [name[0]] + name[1..] == name;
    }
  }

  lemma {:induction false} SplitTwo(req: string, more: string)
    requires Without(req, "}:")
    ensures var parts := Split(req + ":" + more, ':');
            |parts| > 1 && parts[0] == req
  {
    var whole := req + ":" + more;
    if req == "" {
      assert whole[0] == ':' && whole[1..] == more;
    } else {
      SplitTwo(req[1..], more);
      assert whole[0] == req[0] && whole[1..] == req[1..] + ":" + more;
      SplitFirst(whole);
      assert [req[0]] + req[1..] == req;
    }
  }

  /** Scanning fails on no route without braces, well-formed or not. */
  lemma {:induction false} NoBracesNoError(sc: Scanner, path: string)
    requires '{' !in path
    requires sc.collecting ==> sc.varType == ":" || sc.varType == "*"
    ensures Scan(sc, path).Ok? && Finish(Scan(sc, path).value).Ok?
    decreases |path|
  {
    if path == "" {
    } else {
      assert path[0] in path && forall c :: c in path[1..] ==> c in path;
      var sc' := Step(sc, path[0]).value;
      NoBracesNoError(sc', path[1..]);
    }
  }
}
