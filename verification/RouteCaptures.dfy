/**
 When the captures of a match are the values that the path was made of: for routes of `:`
 and `*` variables exactly if a slash stands between any two that follow each other and at
 most one is a star. For the other kinds of variables this is enough, as long as what they
 match has no slash in it.
 */
module RouteCaptures {
  import opened Messages
  import opened RouteScanner
  import opened RouteGrammar
  import opened RouteRegex
  import opened RouteMatching

  // ----- kinds of variables

  /** `*x` and `*(x)`. */
  predicate IsStar(p: Part) {
    (p.Bare? || p.Paren?) && p.star
  }

  /** `:x`, `:(x)` and `{x}`. */
  predicate IsSegment(p: Part) {
    match p
    case Lit(_) => false
    case Bare(star, _) => !star
    case Paren(star, _) => !star
    case Brace(dotted, _, req) => !dotted && req == ""
  }

  /** A variable that matches within a segment of the path; for a given expression this is up to its language. */
  ghost predicate StaysWithin(lang: Language, p: Part) {
    !p.Lit? && match RegexOf(p)[0].kind
               case Segment => true
               case Suffix => true
               case Anything => false
               case Custom(expression) => forall v :: lang(expression, v) ==> '/' !in v
  }

  ghost predicate StarsOrWithin(lang: Language, ps: seq<Part>) {
    forall p :: p in ps ==> p.Lit? || IsStar(p) || StaysWithin(lang, p)
  }

  /** A route of literals without a newline, `:` and `*`. */
  predicate OnlyDefaults(ps: seq<Part>) {
    forall p :: p in ps ==> (p.Lit? && '\n' !in p.text) || IsStar(p) || IsSegment(p)
  }

  /** A slash comes before the next variable, or there is none. */
  predicate Apart(ps: seq<Part>) {
    ps == [] || (ps[0].Lit? && ('/' in ps[0].text || Apart(ps[1..])))
  }

  /** Between any two variables that follow each other there is a slash. */
  predicate Separated(ps: seq<Part>) {
    ps == [] || ((ps[0].Lit? || Apart(ps[1..])) && Separated(ps[1..]))
  }

  predicate NoStar(ps: seq<Part>) {
    ps == [] || (!IsStar(ps[0]) && NoStar(ps[1..]))
  }

  predicate OneStar(ps: seq<Part>) {
    ps == [] || (if IsStar(ps[0]) then NoStar(ps[1..]) else OneStar(ps[1..]))
  }

  // ----- values

  /** What a route admits, part by part. */
  predicate FitsPart(lang: Language, p: Part, groups: Groups) {
    p.Lit? || FitsOne(lang, RegexOf(p)[0], groups)
  }

  lemma AdmissibleFirst(lang: Language, ps: seq<Part>, groups: Groups)
    requires ps != []
    ensures Admissible(lang, ps, groups) <==> FitsPart(lang, ps[0], groups) && Admissible(lang, ps[1..], groups)
  {
    FitsAppend(lang, RegexOf(ps[0]), RegexesOf(ps[1..]), groups);
    if ps[0].Lit? {
      CharsFit(lang, ps[0].text, groups);
    } else {
      assert RegexOf(ps[0])[1..] == [];
    }
  }

  /** Which strings may stand in place of a variable, read off the route. */
  predicate MayStand(lang: Language, p: Part, value: string)
    requires !p.Lit?
  {
    if IsStar(p) then value != "" && '\n' !in value
    else if !p.Brace? || (p.req == "" && !p.dotted) then value != "" && '/' !in value
    else if p.req == "" then value != "" && '/' !in value && '.' !in value
    // an expression may repeat one of the defaults
    else if p.req == ".+?" then value != "" && '\n' !in value
    else if p.req == "[^/]+?" then value != "" && '/' !in value
    else if p.req == "[^/.]+?" then value != "" && '/' !in value && '.' !in value
    else lang(p.req, value)
  }

  /** What a route admits: for every variable a value that may stand there, and none at all only for a dotted one. */
  lemma {:induction false} AdmissibleExactly(lang: Language, ps: seq<Part>, groups: Groups)
    ensures Admissible(lang, ps, groups) <==>
            forall p :: p in ps && !p.Lit? ==>
              p.name in groups && (if groups[p.name].None? then p.Brace? && p.dotted else MayStand(lang, p, groups[p.name].value))
  {
    if ps != [] {
      AdmissibleFirst(lang, ps, groups);
      AdmissibleExactly(lang, ps[1..], groups);
      assert ps == [ps[0]] + ps[1..];
    }
  }

  lemma {:induction false} FitsAppend(lang: Language, a: seq<Regex>, b: seq<Regex>, groups: Groups)
    ensures Fits(lang, a + b, groups) <==> Fits(lang, a, groups) && Fits(lang, b, groups)
  {
    if a == [] {
      assert a + b == b;
    } else {
      assert (a + b)[0] == a[0] && (a + b)[1..] == a[1..] + b;
      FitsAppend(lang, a[1..], b, groups);
    }
  }

  lemma {:induction false} CharsFit(lang: Language, text: string, groups: Groups)
    ensures Fits(lang, Chars(text), groups)
  {
    if text == "" {
    } else {
      CharsFit(lang, text[1..], groups);
    }
  }

  lemma {:induction false} AdmissibleOther(lang: Language, ps: seq<Part>, groups: Groups, name: string, value: Option<string>)
    requires name !in Names(ps)
    ensures Fill(ps, groups[name := value]) == Fill(ps, groups)
    ensures Admissible(lang, ps, groups[name := value]) == Admissible(lang, ps, groups)
  {
    if ps == [] {
    } else {
      AdmissibleOther(lang, ps[1..], groups, name, value);
      AdmissibleFirst(lang, ps, groups);
      AdmissibleFirst(lang, ps, groups[name := value]);
    }
  }

  /** The text of a variable determines its value. */
  lemma TextIsValue(lang: Language, p: Part, g: Groups, h: Groups)
    requires !p.Lit? && FitsPart(lang, p, g) && FitsPart(lang, p, h) && FillPart(p, g) == FillPart(p, h)
    ensures g[p.name] == h[p.name]
  {
    if g[p.name].Some? && h[p.name].Some? {
      var prefix := if p.Brace? && p.dotted then "." else "";
      assert FillPart(p, g)[|prefix|..] == g[p.name].value && FillPart(p, h)[|prefix|..] == h[p.name].value;
    }
  }

  lemma TextStaysWithin(lang: Language, p: Part, groups: Groups)
    requires StaysWithin(lang, p) && FitsPart(lang, p, groups)
    ensures '/' !in FillPart(p, groups)
  {
    if groups[p.name].Some? {
      assert Admits(lang, RegexOf(p)[0].kind, groups[p.name].value);
    }
  }

  // ----- slashes

  /** The place of the first slash, or the length. */
  function FirstSlash(s: string): nat {
    if s == "" || s[0] == '/' then 0 else 1 + FirstSlash(s[1..])
  }

  function Slashes(s: string): nat {
    if s == "" then 0 else (if s[0] == '/' then 1 else 0) + Slashes(s[1..])
  }

  /** The place of the slash with `n - 1` others after it, or the length. */
  function SlashFromEnd(s: string, n: nat): nat {
    if s == "" || (s[0] == '/' && Slashes(s) == n) then 0 else 1 + SlashFromEnd(s[1..], n)
  }

  lemma {:induction false} FirstSlashAfter(a: string, x: string)
    ensures FirstSlash(a + x) == if '/' in a then FirstSlash(a) else |a| + FirstSlash(x)
  {
    if a == "" {
      assert a + x == x;
    } else {
      assert (a + x)[0] == a[0] && (a + x)[1..] == a[1..] + x;
      FirstSlashAfter(a[1..], x);
    }
  }

  lemma {:induction false} SlashesAppend(a: string, x: string)
    ensures Slashes(a + x) == Slashes(a) + Slashes(x)
    ensures '/' !in a ==> Slashes(a) == 0
  {
    if a == "" {
      assert a + x == x;
    } else {
      assert (a + x)[0] == a[0] && (a + x)[1..] == a[1..] + x;
      SlashesAppend(a[1..], x);
    }
  }

  /** Without a slash there is no first one, and the first of all is the last but all others. */
  lemma {:induction false} FirstFromEnd(x: string)
    ensures SlashFromEnd(x, Slashes(x)) == FirstSlash(x)
    ensures Slashes(x) == 0 ==> FirstSlash(x) == |x|
  {
    if x == "" || x[0] == '/' {
    } else {
      FirstFromEnd(x[1..]);
    }
  }

  /** Counted from the end, what stands in front does not matter. */
  lemma {:induction false} SlashFromEndAfter(a: string, x: string)
    ensures SlashFromEnd(a + x, Slashes(x)) == |a| + FirstSlash(x)
  {
    if a == "" {
      assert a + x == x;
      FirstFromEnd(x);
    } else {
      assert (a + x)[0] == a[0] && (a + x)[1..] == a[1..] + x;
      SlashesAppend(a, x);
      SlashFromEndAfter(a[1..], x);
    }
  }

  lemma SameLength(a: string, x: string, b: string, y: string)
    requires a + x == b + y && |a| == |b|
    ensures a == b && x == y
  {
    assert a == (a + x)[..|a|] && b == (b + y)[..|b|];
    assert x == (a + x)[|a|..] && y == (b + y)[|b|..];
  }

  /**
   Two texts that are each followed by another one whose first slash has the same place: if
   they have no slash, or what follows has the same number of slashes, equal wholes have
   equal parts.
   */
  lemma InFront(a: string, x: string, b: string, y: string)
    requires a + x == b + y && FirstSlash(x) == FirstSlash(y)
    requires ('/' !in a && '/' !in b) || Slashes(x) == Slashes(y)
    ensures a == b && x == y
  {
    if Slashes(x) == Slashes(y) {
      SlashFromEndAfter(a, x);
      SlashFromEndAfter(b, y);
    } else {
      FirstSlashAfter(a, x);
      FirstSlashAfter(b, y);
    }
    SameLength(a, x, b, y);
  }

  // ----- separated routes

  /** Where a slash comes before the next variable, its place does not depend on the values. */
  lemma {:induction false} ApartSlash(ps: seq<Part>, g: Groups, h: Groups)
    requires Apart(ps)
    ensures FirstSlash(Fill(ps, g)) == FirstSlash(Fill(ps, h))
  {
    if ps == [] {
    } else {
      FirstSlashAfter(ps[0].text, Fill(ps[1..], g));
      FirstSlashAfter(ps[0].text, Fill(ps[1..], h));
      if '/' !in ps[0].text {
        ApartSlash(ps[1..], g, h);
      }
    }
  }

  /** Without a star the number of slashes does not depend on the values. */
  lemma {:induction false} SlashesFixed(lang: Language, ps: seq<Part>, g: Groups, h: Groups)
    requires StarsOrWithin(lang, ps) && NoStar(ps) && Admissible(lang, ps, g) && Admissible(lang, ps, h)
    ensures Slashes(Fill(ps, g)) == Slashes(Fill(ps, h))
  {
    if ps == [] {
    } else {
      assert ps[0] in ps && StarsOrWithin(lang, ps[1..]);
      AdmissibleFirst(lang, ps, g);
      AdmissibleFirst(lang, ps, h);
      SlashesFixed(lang, ps[1..], g, h);
      SlashesAppend(FillPart(ps[0], g), Fill(ps[1..], g));
      SlashesAppend(FillPart(ps[0], h), Fill(ps[1..], h));
      if !ps[0].Lit? {
        TextStaysWithin(lang, ps[0], g);
        TextStaysWithin(lang, ps[0], h);
      }
    }
  }

  /** The first part of a separated route takes the same text from equal paths. */
  lemma SameFirst(lang: Language, ps: seq<Part>, g: Groups, h: Groups)
    requires ps != [] && StarsOrWithin(lang, ps) && Separated(ps) && OneStar(ps)
    requires Admissible(lang, ps, g) && Admissible(lang, ps, h) && Fill(ps, g) == Fill(ps, h)
    ensures FillPart(ps[0], g) == FillPart(ps[0], h) && Fill(ps[1..], g) == Fill(ps[1..], h)
  {
    var a, b := FillPart(ps[0], g), FillPart(ps[0], h);
    var x, y := Fill(ps[1..], g), Fill(ps[1..], h);
    AdmissibleFirst(lang, ps, g);
    AdmissibleFirst(lang, ps, h);
    assert ps[0] in ps && StarsOrWithin(lang, ps[1..]);
    if ps[0].Lit? {
      SameLength(a, x, b, y);
    } else {
      ApartSlash(ps[1..], g, h);
      if IsStar(ps[0]) {
        SlashesFixed(lang, ps[1..], g, h);
      } else {
        TextStaysWithin(lang, ps[0], g);
        TextStaysWithin(lang, ps[0], h);
      }
      InFront(a, x, b, y);
    }
  }

  lemma {:induction false} OneStarAfter(ps: seq<Part>)
    requires NoStar(ps)
    ensures OneStar(ps)
  {
    if ps == [] {
    } else {
      OneStarAfter(ps[1..]);
    }
  }

  /** For separated routes with at most one star different values make different paths. */
  lemma {:induction false} SeparatedIsInjective(lang: Language, ps: seq<Part>, g: Groups, h: Groups)
    requires StarsOrWithin(lang, ps) && Separated(ps) && OneStar(ps)
    requires Admissible(lang, ps, g) && Admissible(lang, ps, h) && Fill(ps, g) == Fill(ps, h)
    ensures forall name :: name in Names(ps) ==> name in g && name in h && g[name] == h[name]
  {
    if ps == [] {
    } else {
      SameFirst(lang, ps, g, h);
      AdmissibleFirst(lang, ps, g);
      AdmissibleFirst(lang, ps, h);
      assert StarsOrWithin(lang, ps[1..]);
      if IsStar(ps[0]) {
        OneStarAfter(ps[1..]);
      }
      if !ps[0].Lit? {
        TextIsValue(lang, ps[0], g, h);
      }
      SeparatedIsInjective(lang, ps[1..], g, h);
    }
  }

  /** Matching the route with any admissible values in it captures these values. */
  ghost predicate CapturesItsValues(lang: Language, ps: seq<Part>) {
    forall groups :: Admissible(lang, ps, groups) && groups.Keys == Names(ps) ==>
      Match(lang, RegexesOf(ps), Fill(ps, groups)) == Some(groups)
  }

  /**
   If a slash stands between any two variables that follow each other, at most one is a
   star, and no given expression matches a slash, then the captures are the values.
   */
  lemma SeparatedCaptures(lang: Language, ps: seq<Part>)
    requires StarsOrWithin(lang, ps) && Distinct(ps) && Separated(ps) && OneStar(ps)
    ensures CapturesItsValues(lang, ps)
  {
    forall groups | Admissible(lang, ps, groups) && groups.Keys == Names(ps)
      ensures Match(lang, RegexesOf(ps), Fill(ps, groups)) == Some(groups)
    {
      var path := Fill(ps, groups);
      RouteMatchedExactly(lang, ps, path);
      var captured := Match(lang, RegexesOf(ps), path).value;
      SeparatedIsInjective(lang, ps, captured, groups);
      assert captured == groups;
    }
  }

  // ----- other routes

  /** The parts before the next variable, or before the next star. */
  function Upto(ps: seq<Part>, stars: bool): seq<Part> {
    if ps == [] || (if stars then IsStar(ps[0]) else !ps[0].Lit?) then [] else [ps[0]] + Upto(ps[1..], stars)
  }

  function From(ps: seq<Part>, stars: bool): (rest: seq<Part>)
    ensures Upto(ps, stars) + rest == ps
    ensures rest != [] ==> if stars then IsStar(rest[0]) else !rest[0].Lit?
  {
    if ps == [] || (if stars then IsStar(ps[0]) else !ps[0].Lit?) then ps else From(ps[1..], stars)
  }

  lemma {:induction false} FillAppend(a: seq<Part>, b: seq<Part>, groups: Groups)
    ensures Fill(a + b, groups) == Fill(a, groups) + Fill(b, groups)
  {
    if a == [] {
      assert a + b == b;
    } else {
      var whole := a + b;
      assert whole[0] == a[0] && whole[1..] == a[1..] + b;
      FillAppend(a[1..], b, groups);
      Assoc(FillPart(a[0], groups), Fill(a[1..], groups), Fill(b, groups));
    }
  }

  lemma {:induction false} DistinctParts(a: seq<Part>, b: seq<Part>)
    requires Distinct(a + b)
    ensures Distinct(b) && Names(a) !! Names(b)
  {
    if a == [] {
      assert a + b == b;
    } else {
      assert (a + b)[0] == a[0] && (a + b)[1..] == a[1..] + b;
      DistinctParts(a[1..], b);
      NamesAppend(a[1..], b);
    }
  }

  /** Without a slash before it there is a next variable. */
  lemma {:induction false} NotApart(ps: seq<Part>, groups: Groups)
    requires !Apart(ps)
    ensures From(ps, false) != [] && '/' !in Fill(Upto(ps, false), groups)
  {
    if !ps[0].Lit? {
    } else {
      NotApart(ps[1..], groups);
    }
  }

  lemma {:induction false} SomeStar(ps: seq<Part>)
    requires !NoStar(ps)
    ensures From(ps, true) != []
  {
    if IsStar(ps[0]) {
    } else {
      SomeStar(ps[1..]);
    }
  }

  /** Every variable has the value "x". */
  function Ones(names: set<string>): Groups {
    map name | name in names :: Some("x")
  }

  lemma {:induction false} OnesAreAdmissible(lang: Language, ps: seq<Part>, names: set<string>)
    requires OnlyDefaults(ps) && Names(ps) <= names
    ensures Admissible(lang, ps, Ones(names))
  {
    if ps == [] {
    } else {
      assert ps[0] in ps && OnlyDefaults(ps[1..]);
      OnesAreAdmissible(lang, ps[1..], names);
      AdmissibleFirst(lang, ps, Ones(names));
    }
  }

  lemma {:induction false} OnesArePlain(ps: seq<Part>, names: set<string>)
    requires OnlyDefaults(ps) && Names(ps) <= names
    ensures '\n' !in Fill(ps, Ones(names))
  {
    if ps == [] {
    } else {
      assert ps[0] in ps && OnlyDefaults(ps[1..]);
      OnesArePlain(ps[1..], names);
      if !ps[0].Lit? {
        assert FillPart(ps[0], Ones(names)) == "" + "x" == "x";
      }
    }
  }

  /** A variable in front and the next one, and the names of what stands between and after. */
  lemma NextNames(ps: seq<Part>, stars: bool)
    requires ps != [] && !ps[0].Lit? && Distinct(ps) && OnlyDefaults(ps) && From(ps[1..], stars) != []
    ensures var between, next := Upto(ps[1..], stars), From(ps[1..], stars);
            && (IsStar(next[0]) || IsSegment(next[0])) && Distinct(next)
            && next[0].name in Names(ps) && next[0].name != ps[0].name && next[0].name !in Names(between) && next[0].name !in Names(next[1..])
            && ps[0].name !in Names(between) && ps[0].name !in Names(next[1..])
            && Names(between) !! Names(next)
  {
    var between, next := Upto(ps[1..], stars), From(ps[1..], stars);
    assert ps[1..] == between + next;
    assert next[0] in ps[1..] && next[0] in ps;
    DistinctParts(between, next);
    NamesAppend(between, next);
    assert next[0].name in Names(next);
  }

  /** Values for two variables of a route, and what stands between them, and after. */
  lemma FillTwo(lang: Language, ps: seq<Part>, stars: bool, groups: Groups, v: string, w: string)
    requires ps != [] && !ps[0].Lit? && Distinct(ps) && OnlyDefaults(ps) && From(ps[1..], stars) != []
    ensures var next := From(ps[1..], stars);
            var both := groups[ps[0].name := Some(v)][next[0].name := Some(w)];
            && next[0].name in Names(ps) && next[0].name != ps[0].name
            && Fill(ps, both) == v + (Fill(Upto(ps[1..], stars), groups) + (w + Fill(next[1..], groups)))
  {
    var between, next := Upto(ps[1..], stars), From(ps[1..], stars);
    NextNames(ps, stars);
    var first := groups[ps[0].name := Some(v)];
    var both := first[next[0].name := Some(w)];
    TwoOthers(lang, between, groups, ps[0].name, Some(v), next[0].name, Some(w));
    TwoOthers(lang, next[1..], groups, ps[0].name, Some(v), next[0].name, Some(w));
    FillAppend(between, next, both);
    assert ps[0] in ps;
    assert FillPart(ps[0], both) == "" + v == v && FillPart(next[0], both) == "" + w == w;
  }

  lemma TwoOthers(lang: Language, ps: seq<Part>, groups: Groups, a: string, v: Option<string>, b: string, w: Option<string>)
    requires a !in Names(ps) && b !in Names(ps)
    ensures Fill(ps, groups[a := v][b := w]) == Fill(ps, groups)
  {
    AdmissibleOther(lang, ps, groups, a, v);
    AdmissibleOther(lang, ps, groups[a := v], b, w);
  }

  lemma AdmissibleTwo(lang: Language, ps: seq<Part>, stars: bool, v: string, w: string)
    requires ps != [] && !ps[0].Lit? && Distinct(ps) && OnlyDefaults(ps) && From(ps[1..], stars) != []
    requires Suits(ps[0], v) && Suits(From(ps[1..], stars)[0], w)
    ensures var next := From(ps[1..], stars);
            Admissible(lang, ps, Ones(Names(ps))[ps[0].name := Some(v)][next[0].name := Some(w)])
  {
    var between, next := Upto(ps[1..], stars), From(ps[1..], stars);
    var first := Ones(Names(ps))[ps[0].name := Some(v)];
    var both := first[next[0].name := Some(w)];
    FirstAdmissible(lang, ps, v);
    NextNames(ps, stars);
    AdmissibleFirst(lang, ps, first);
    AdmissibleFirst(lang, ps, both);
    assert ps[1..] == between + next;
    OneValue(lang, between, next, first, w);
    assert FitsPart(lang, ps[0], both) == FitsPart(lang, ps[0], first);
  }

  lemma FirstAdmissible(lang: Language, ps: seq<Part>, v: string)
    requires ps != [] && !ps[0].Lit? && Distinct(ps) && OnlyDefaults(ps) && Suits(ps[0], v)
    ensures Admissible(lang, ps, Ones(Names(ps))[ps[0].name := Some(v)])
  {
    var ones := Ones(Names(ps));
    assert ps[0] in ps;
    OnesAreAdmissible(lang, ps, Names(ps));
    AdmissibleFirst(lang, ps, ones);
    AdmissibleOther(lang, ps[1..], ones, ps[0].name, Some(v));
    AdmissibleFirst(lang, ps, ones[ps[0].name := Some(v)]);
  }

  /** The values that `:` or `*` take. */
  predicate Suits(p: Part, v: string) {
    v != "" && '\n' !in v && (!IsStar(p) ==> '/' !in v)
  }

  /** Another suitable value for one variable. */
  lemma OneValue(lang: Language, before: seq<Part>, next: seq<Part>, groups: Groups, w: string)
    requires next != [] && (IsStar(next[0]) || IsSegment(next[0])) && Suits(next[0], w)
    requires Distinct(next) && Names(before) !! Names(next) && Admissible(lang, before + next, groups)
    ensures Admissible(lang, before + next, groups[next[0].name := Some(w)])
  {
    var other := groups[next[0].name := Some(w)];
    assert next[0].name in Names(next);
    AdmissibleAppend(lang, before, next, groups);
    AdmissibleAppend(lang, before, next, other);
    AdmissibleOther(lang, before, groups, next[0].name, Some(w));
    AdmissibleOther(lang, next[1..], groups, next[0].name, Some(w));
    AdmissibleFirst(lang, next, groups);
    AdmissibleFirst(lang, next, other);
  }

  lemma {:induction false} AdmissibleAppend(lang: Language, a: seq<Part>, b: seq<Part>, groups: Groups)
    ensures Admissible(lang, a + b, groups) <==> Admissible(lang, a, groups) && Admissible(lang, b, groups)
  {
    if a == [] {
      assert a + b == b;
    } else {
      assert (a + b)[0] == a[0] && (a + b)[1..] == a[1..] + b;
      AdmissibleAppend(lang, a[1..], b, groups);
      AdmissibleFirst(lang, a, groups);
      AdmissibleFirst(lang, a + b, groups);
    }
  }

  lemma Shift(between: string, end: string)
    ensures var long := "x" + between + "x";
            long + (between + ("x" + end)) == "x" + (between + (long + end))
  {
    var long := "x" + between + "x";
    assert long + (between + ("x" + end)) == "x" + between + "x" + between + "x" + end;
    assert "x" + (between + (long + end)) == "x" + between + "x" + between + "x" + end;
  }

  /** Two variables that can both take what stands between them, and two ways to give them values. */
  lemma TwoWays(lang: Language, ps: seq<Part>, stars: bool) returns (g: Groups, h: Groups)
    requires ps != [] && !ps[0].Lit? && Distinct(ps) && OnlyDefaults(ps) && From(ps[1..], stars) != []
    requires stars ==> IsStar(ps[0])
    requires !stars ==> '/' !in Fill(Upto(ps[1..], false), Ones(Names(ps)))
    ensures g.Keys == h.Keys == Names(ps) && g != h && Fill(ps, g) == Fill(ps, h)
    ensures Admissible(lang, ps, g) && Admissible(lang, ps, h)
  {
    var next := From(ps[1..], stars);
    var ones := Ones(Names(ps));
    var between := Fill(Upto(ps[1..], stars), ones);
    var long := "x" + between + "x";
    BetweenIsPlain(lang, ps, stars);
    assert Suits(ps[0], "x") && Suits(next[0], "x") && Suits(ps[0], long) && Suits(next[0], long);
    FillTwo(lang, ps, stars, ones, long, "x");
    FillTwo(lang, ps, stars, ones, "x", long);
    AdmissibleTwo(lang, ps, stars, long, "x");
    AdmissibleTwo(lang, ps, stars, "x", long);
    Shift(between, Fill(next[1..], ones));
    g := ones[ps[0].name := Some(long)][next[0].name := Some("x")];
    h := ones[ps[0].name := Some("x")][next[0].name := Some(long)];
    assert g[ps[0].name] == Some(long) && h[ps[0].name] == Some("x") && |long| > 1;
  }

  lemma BetweenIsPlain(lang: Language, ps: seq<Part>, stars: bool)
    requires ps != [] && OnlyDefaults(ps)
    ensures '\n' !in Fill(Upto(ps[1..], stars), Ones(Names(ps)))
  {
    var between, next := Upto(ps[1..], stars), From(ps[1..], stars);
    assert ps[1..] == between + next;
    assert forall p :: p in between ==> p in ps[1..];
    assert forall p :: p in ps[1..] ==> p in ps;
    NamesAppend(between, next);
    OnesArePlain(between, Names(ps));
  }

  /** A route that is not separated, or has two stars, has one path for two choices of values. */
  lemma {:induction false} Ambiguous(lang: Language, ps: seq<Part>) returns (g: Groups, h: Groups)
    requires OnlyDefaults(ps) && Distinct(ps) && !(Separated(ps) && OneStar(ps))
    ensures g.Keys == h.Keys == Names(ps) && g != h && Fill(ps, g) == Fill(ps, h)
    ensures Admissible(lang, ps, g) && Admissible(lang, ps, h)
  {
    assert ps[0] in ps && OnlyDefaults(ps[1..]);
    if !ps[0].Lit? && !Apart(ps[1..]) {
      NotApart(ps[1..], Ones(Names(ps)));
      g, h := TwoWays(lang, ps, false);
    } else if IsStar(ps[0]) && !NoStar(ps[1..]) {
      SomeStar(ps[1..]);
      g, h := TwoWays(lang, ps, true);
    } else {
      if IsStar(ps[0]) {
        OneStarAfter(ps[1..]);
      }
      var g', h' := Ambiguous(lang, ps[1..]);
      g, h := AmbiguousMore(lang, ps, g', h');
    }
  }

  lemma AmbiguousMore(lang: Language, ps: seq<Part>, g: Groups, h: Groups) returns (g': Groups, h': Groups)
    requires ps != [] && OnlyDefaults(ps) && Distinct(ps)
    requires g.Keys == h.Keys == Names(ps[1..]) && g != h && Fill(ps[1..], g) == Fill(ps[1..], h)
    requires Admissible(lang, ps[1..], g) && Admissible(lang, ps[1..], h)
    ensures g'.Keys == h'.Keys == Names(ps) && g' != h' && Fill(ps, g') == Fill(ps, h')
    ensures Admissible(lang, ps, g') && Admissible(lang, ps, h')
  {
    assert ps[0] in ps;
    g', h' := g, h;
    if !ps[0].Lit? {
      var name := ps[0].name;
      AdmissibleOther(lang, ps[1..], g, name, Some("x"));
      AdmissibleOther(lang, ps[1..], h, name, Some("x"));
      var other :| other in g.Keys && g[other] != h[other];
      g', h' := g[name := Some("x")], h[name := Some("x")];
      assert g'[other] != h'[other];
    }
    AdmissibleFirst(lang, ps, g');
    AdmissibleFirst(lang, ps, h');
  }

  // ----- both

  /**
   For a route of literals, `:` and `*`, matching it with any values in it captures exactly
   these values if and only if a slash stands between any two variables that follow each
   other and at most one of them is a star.
   */
  lemma CapturesExactly(lang: Language, ps: seq<Part>)
    requires OnlyDefaults(ps) && Distinct(ps)
    ensures CapturesItsValues(lang, ps) <==> Separated(ps) && OneStar(ps)
  {
    if Separated(ps) && OneStar(ps) {
      SeparatedCaptures(lang, ps);
    } else {
      var g, h := Ambiguous(lang, ps);
      assert Match(lang, RegexesOf(ps), Fill(ps, g)) != Some(g) || Match(lang, RegexesOf(ps), Fill(ps, h)) != Some(h);
    }
  }

  /** The expression that `regexpath` makes of a route captures the values of the paths made from it. */
  ghost predicate TextCapturesItsValues(lang: Language, ps: seq<Part>) {
    RegexPath(PrintAll(ps)).Ok?
    && forall groups :: Admissible(lang, ps, groups) && groups.Keys == Names(ps) ==>
         MatchText(lang, RegexPath(PrintAll(ps)).value, Fill(ps, groups)) == Some(groups)
  }

  lemma TextCaptures(lang: Language, ps: seq<Part>)
    requires WellFormed(ps) && RouteReadable(ps)
    ensures TextCapturesItsValues(lang, ps) <==> CapturesItsValues(lang, ps)
  {
    ExpressionMatches(lang, ps, "");
    forall groups ensures MatchText(lang, RegexPath(PrintAll(ps)).value, Fill(ps, groups)) == Match(lang, RegexesOf(ps), Fill(ps, groups)) {
      ExpressionMatches(lang, ps, Fill(ps, groups));
    }
  }

  /** The same of the expression that `regexpath` makes of the route; and one way for the other kinds of variables. */
  lemma CapturesRoundTrip(lang: Language, ps: seq<Part>)
    requires WellFormed(ps) && RouteReadable(ps)
    ensures OnlyDefaults(ps) ==> (TextCapturesItsValues(lang, ps) <==> Separated(ps) && OneStar(ps))
    ensures StarsOrWithin(lang, ps) && Separated(ps) && OneStar(ps) ==> TextCapturesItsValues(lang, ps)
  {
    TextCaptures(lang, ps);
    if OnlyDefaults(ps) {
      CapturesExactly(lang, ps);
    }
    if StarsOrWithin(lang, ps) && Separated(ps) && OneStar(ps) {
      SeparatedCaptures(lang, ps);
    }
  }

  // ----- which values are captured instead

  /** The group in front takes as little as what follows it allows. */
  lemma {:induction false} TakesTheLeast(lang: Language, rs: seq<Regex>, path: string, n: nat, m: nat)
    requires rs != [] && !rs[0].Char? && n <= m <= |path|
    requires Admits(lang, rs[0].kind, path[..m]) && Match(lang, rs[1..], path[m..]).Some?
    ensures Try(lang, rs, path, n).Some?
    ensures var groups := Try(lang, rs, path, n).value;
            rs[0].name in groups && groups[rs[0].name].Some? && |groups[rs[0].name].value| <= m
    decreases m - n
  {
    if Admits(lang, rs[0].kind, path[..n]) && Match(lang, rs[1..], path[n..]).Some? {
    } else {
      TakesTheLeast(lang, rs, path, n + 1, m);
    }
  }

  const PAIR: seq<Part> := [Paren(false, "a"), Bare(false, "b")]
  const FIRST: Regex := Named("a", Segment)
  const SECOND: Regex := Named("b", Segment)

  lemma PairForms()
    ensures RegexesOf(PAIR) == [FIRST, SECOND] && Names(PAIR) == {"a", "b"} && Distinct(PAIR)
  {
    assert PAIR[1..] == [Bare(false, "b")] && PAIR[1..][1..] == [];
    assert RegexesOf(PAIR[1..]) == [SECOND] + [];
  }

  lemma PairText(groups: Groups, s: string, t: string)
    requires groups.Keys == {"a", "b"} && groups["a"] == Some(s) && groups["b"] == Some(t)
    ensures Fill(PAIR, groups) == s + t && Expand([SECOND], groups) == t
  {
    assert PAIR[1..] == [Bare(false, "b")] && PAIR[1..][1..] == [];
    assert Fill(PAIR[1..], groups) == ("" + t) + "" == t && "" + s == s;
  }

  lemma PairFits(lang: Language, groups: Groups, s: string, t: string)
    requires groups.Keys == {"a", "b"} && groups["a"] == Some(s) && groups["b"] == Some(t)
    ensures Fits(lang, [SECOND], groups) <==> t != "" && '/' !in t
    ensures Fits(lang, [FIRST, SECOND], groups) <==> s != "" && '/' !in s && t != "" && '/' !in t
  {
    assert [SECOND][1..] == [] && [FIRST, SECOND][1..] == [SECOND];
    assert FitsOne(lang, FIRST, groups) <==> Admits(lang, Segment, s);
    assert FitsOne(lang, SECOND, groups) <==> Admits(lang, Segment, t);
  }

  /** Without a slash between them the first of two variables takes as little as it can: `:(a):b` gives it one character. */
  lemma AdjacentVariablesSplitEarly(lang: Language, s: string, t: string)
    requires |s| >= 2 && t != "" && '/' !in s && '/' !in t
    ensures var made := map["a" := Some(s), "b" := Some(t)];
            && Admissible(lang, PAIR, made)
            && Match(lang, RegexesOf(PAIR), Fill(PAIR, made)) == Some(map["a" := Some(s[..1]), "b" := Some(s[1..] + t)])
  {
    var made := map["a" := Some(s), "b" := Some(t)];
    PairForms();
    PairText(made, s, t);
    PairFits(lang, made, s, t);
    TakesOne(lang, s + t);
    assert (s + t)[..1] == s[..1] && (s + t)[1..] == s[1..] + t;
  }

  lemma TakesOne(lang: Language, path: string)
    requires |path| >= 2 && '/' !in path
    ensures Match(lang, [FIRST, SECOND], path) == Some(map["a" := Some(path[..1]), "b" := Some(path[1..])])
  {
    FirstTakesOne(lang, path);
    PairForms();
    RouteMatchedExactly(lang, PAIR, path);
    var captured := Match(lang, [FIRST, SECOND], path).value;
    OnlyOneSplit(lang, path, captured);
    assert captured == map["a" := Some(path[..1]), "b" := Some(path[1..])];
  }

  lemma FirstTakesOne(lang: Language, path: string)
    requires |path| >= 2 && '/' !in path
    ensures var result := Match(lang, [FIRST, SECOND], path);
            result.Some? && "a" in result.value && result.value["a"].Some? && |result.value["a"].value| <= 1
  {
    var rs := [FIRST, SECOND];
    var least := map["a" := Some(path[..1]), "b" := Some(path[1..])];
    assert rs[1..] == [SECOND];
    PairForms();
    PairText(least, path[..1], path[1..]);
    PairFits(lang, least, path[..1], path[1..]);
    ExpandIsMatched(lang, [SECOND], least);
    TakesTheLeast(lang, rs, path, 0, 1);
  }

  lemma OnlyOneSplit(lang: Language, path: string, captured: Groups)
    requires |path| >= 2 && captured.Keys == {"a", "b"} && Admissible(lang, PAIR, captured) && Fill(PAIR, captured) == path
    requires captured["a"].Some? && |captured["a"].value| <= 1
    ensures captured["a"] == Some(path[..1]) && captured["b"] == Some(path[1..])
  {
    PairForms();
    assert [FIRST, SECOND][1..] == [SECOND] && Fits(lang, [SECOND], captured);
    assert FitsOne(lang, SECOND, captured);
    var a, b := captured["a"].value, captured["b"].value;
    PairText(captured, a, b);
    assert a + b == path && |a| == 1;
    assert path[..1] == a && path[1..] == b;
  }

  // ----- an optional suffix after a variable

  const SUFFIXED: seq<Part> := [Paren(false, "x"), Brace(true, "y", "")]
  const STEM: Regex := Named("x", Segment)
  const SUFFIX: Regex := Dotted("y", Suffix)

  /** Whether a value looks like one with a suffix. */
  predicate HasSuffix(s: string) {
    exists i :: 0 < i < |s| - 1 && s[i] == '.' && '.' !in s[i + 1..]
  }

  function Made(s: string, suffix: Option<string>): Groups {
    map["x" := Some(s), "y" := suffix]
  }

  function Suffixed(s: string, suffix: Option<string>): string {
    s + if suffix.None? then "" else "." + suffix.value
  }

  predicate SuffixFits(suffix: Option<string>) {
    suffix.Some? ==> suffix.value != "" && '/' !in suffix.value && '.' !in suffix.value
  }

  lemma SuffixedForms()
    ensures RegexesOf(SUFFIXED) == [STEM, SUFFIX] && Names(SUFFIXED) == {"x", "y"} && Distinct(SUFFIXED)
  {
    assert SUFFIXED[1..] == [Brace(true, "y", "")] && SUFFIXED[1..][1..] == [];
    assert RegexesOf(SUFFIXED[1..]) == [SUFFIX] + [];
  }

  lemma SuffixedText(groups: Groups, s: string, suffix: Option<string>)
    requires groups.Keys == {"x", "y"} && groups["x"] == Some(s) && groups["y"] == suffix
    ensures Fill(SUFFIXED, groups) == Suffixed(s, suffix)
    ensures Expand([SUFFIX], groups) == if suffix.None? then "" else "." + suffix.value
  {
    assert SUFFIXED[1..] == [Brace(true, "y", "")] && SUFFIXED[1..][1..] == [];
    var end := if suffix.None? then "" else "." + suffix.value;
    assert Fill(SUFFIXED[1..], groups) == end + "" == end && "" + s == s;
    assert [SUFFIX][1..] == [] && Expand([SUFFIX], groups) == end + "" == end;
  }

  lemma SuffixedFits(lang: Language, groups: Groups)
    requires groups.Keys == {"x", "y"}
    ensures Fits(lang, [SUFFIX], groups) <==> SuffixFits(groups["y"])
    ensures Admissible(lang, SUFFIXED, groups) <==>
              groups["x"].Some? && groups["x"].value != "" && '/' !in groups["x"].value && SuffixFits(groups["y"])
  {
    SuffixedForms();
    assert [SUFFIX][1..] == [] && [STEM, SUFFIX][1..] == [SUFFIX];
    assert FitsOne(lang, SUFFIX, groups) <==> SuffixFits(groups["y"]);
  }

  /** A path made of a stem and a suffix is matched, with a stem no longer than that. */
  lemma SuffixedMatches(lang: Language, s: string, suffix: Option<string>)
    requires s != "" && '/' !in s && SuffixFits(suffix)
    ensures var result := Match(lang, RegexesOf(SUFFIXED), Suffixed(s, suffix));
            result.Some? && "x" in result.value && result.value["x"].Some? && |result.value["x"].value| <= |s|
  {
    var path := Suffixed(s, suffix);
    var made := Made(s, suffix);
    var rs := [STEM, SUFFIX];
    SuffixedForms();
    SuffixedText(made, s, suffix);
    SuffixedFits(lang, made);
    ExpandIsMatched(lang, [SUFFIX], made);
    assert rs[1..] == [SUFFIX] && path[..|s|] == s && path[|s|..] == Expand([SUFFIX], made);
    TakesTheLeast(lang, rs, path, 0, |s|);
  }

  /** What is captured from a path is some stem and some suffix of it, the stem no longer than any that would do. */
  lemma SuffixCaptured(lang: Language, s: string, suffix: Option<string>) returns (stem: string, end: Option<string>)
    requires s != "" && '/' !in s && SuffixFits(suffix)
    ensures Match(lang, RegexesOf(SUFFIXED), Suffixed(s, suffix)) == Some(Made(stem, end))
    ensures stem != "" && SuffixFits(end) && Suffixed(stem, end) == Suffixed(s, suffix) && |stem| <= |s|
  {
    SuffixedMatches(lang, s, suffix);
    SuffixedForms();
    RouteMatchedExactly(lang, SUFFIXED, Suffixed(s, suffix));
    var captured := Match(lang, RegexesOf(SUFFIXED), Suffixed(s, suffix)).value;
    SuffixedFits(lang, captured);
    stem, end := captured["x"].value, captured["y"];
    SuffixedText(captured, stem, end);
    assert captured == Made(stem, end);
  }

  /** A path has one suffix at most. */
  lemma OneSuffix(s: string, t: string, s': string, t': string)
    requires s + ("." + t) == s' + ("." + t') && '.' !in t && '.' !in t'
    ensures s == s' && t == t'
  {
    var path := s + ("." + t);
    assert path[|s|] == '.' && path[|s'|] == '.';
    assert path[|s| + 1..] == t && path[|s'| + 1..] == t';
    SameLength(s, "." + t, s', "." + t');
    assert ("." + t)[1..] == t && ("." + t')[1..] == t';
  }

  /**
   An optional suffix right after a variable, as in `:(x){.y}`: the captures are the values
   exactly if there is a suffix, or the value before it does not look like one with a suffix.
   */
  lemma SuffixCapturesExactly(lang: Language, s: string, suffix: Option<string>)
    requires s != "" && '/' !in s && SuffixFits(suffix)
    ensures Match(lang, RegexesOf(SUFFIXED), Suffixed(s, suffix)) == Some(Made(s, suffix)) <==> suffix.Some? || !HasSuffix(s)
  {
    var stem, end := SuffixCaptured(lang, s, suffix);
    if suffix.Some? {
      if end.Some? {
        OneSuffix(s, suffix.value, stem, end.value);
      }
    } else {
      assert Suffixed(s, None) == s;
      if end.Some? {
        assert s == stem + ("." + end.value);
        assert s[|stem|] == '.' && s[|stem| + 1..] == end.value;
        assert Made(stem, end)["y"] != None;
      } else {
        assert Suffixed(stem, end) == stem;
        if HasSuffix(s) {
          var i :| 0 < i < |s| - 1 && s[i] == '.' && '.' !in s[i + 1..];
          SuffixIsTaken(lang, s, i);
        }
      }
    }
  }

  lemma SuffixIsTaken(lang: Language, s: string, i: nat)
    requires 0 < i < |s| - 1 && s[i] == '.' && '.' !in s[i + 1..] && '/' !in s
    ensures Match(lang, RegexesOf(SUFFIXED), s) != Some(Made(s, None))
  {
    var stem, end := SuffixCaptured(lang, s[..i], Some(s[i + 1..]));
    assert Suffixed(s[..i], Some(s[i + 1..])) == s;
    assert Made(stem, end)["x"] == Some(stem) && Made(s, None)["x"] == Some(s) && |stem| < |s|;
  }
}
