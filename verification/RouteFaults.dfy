/**
 On which routes the scanner fails, and how. A variable without braces never fails; it is
 skipped with whatever stands in it. A pair of braces fails if it is empty, and one that is
 never closed fails unless its whole text was given an expression before.
 */
module RouteFaults {
  import opened Messages
  import opened RouteScanner
  import opened RouteGrammar

  /** The place of the first character that is one of `stops`, or the length. */
  function Stop(s: string, stops: string): (j: nat)
    ensures j <= |s| && Without(s[..j], stops)
    ensures j < |s| ==> s[j] in stops
  {
    if s == "" || s[0] in stops then 0
    else
      var j := 1 + Stop(s[1..], stops);
      assert forall i :: 0 < i < j ==> s[..j][i] == s[1..][..j - 1][i - 1];
      j
  }

  /** What a variable without braces consists of after its first character, given what follows that; and what ends it. */
  function NameLength(rest: string): nat
    requires rest != ""
  {
    Stop(rest[1..], NameStops(rest))
  }

  function NameStops(rest: string): string
    requires rest != ""
  {
    if rest[0] == '(' then ")" else DONE_CHARS + "-"
  }

  /** The expressions after a pair of braces around `inside`. */
  function ReqsInside(inside: string, reqs: map<string, string>): map<string, string>
    requires inside != ""
  {
    var opts := Split(if inside[0] == '.' then inside[1..] else inside, ':');
    if |opts| > 1 then reqs[opts[0] := opts[1]] else reqs
  }

  /** How scanning a route fails, given the expressions of the names before it. */
  function Fault(path: string, reqs: map<string, string>): Option<ScanError>
    decreases |path|
  {
    if path == "" then None
    else
      var rest := path[1..];
      if path[0] == '{' then
        var j := Stop(rest, "}");
        if j == |rest| then
          if rest in reqs && reqs[rest] != "" then None else Some(KeyError)
        else if j == 0 then Some(IndexError)
        else Fault(rest[j + 1..], ReqsInside(rest[..j], reqs))
      else if path[0] in ":*" then
        if rest == "" || NameLength(rest) == |rest| - 1 then None
        else Fault(rest[NameLength(rest) + 2..], reqs)
      else Fault(rest, reqs)
  }

  /** What scanning comes to from a state. */
  function Outcome(sc: Scanner, path: string): Result<seq<string>> {
    match Scan(sc, path)
    case Err(e) => Err(e)
    case Ok(sc') => Finish(sc')
  }

  predicate Agrees(result: Result<seq<string>>, fault: Option<ScanError>) {
    match fault
    case None => result.Ok?
    case Some(e) => result == Err(e)
  }

  lemma OutcomeFirst(sc: Scanner, path: string)
    requires path != ""
    ensures Outcome(sc, path) == match Step(sc, path[0]) case Err(e) => Err(e) case Ok(sc') => Outcome(sc', path[1..])
  {
  }

  lemma OutcomeAfter(sc: Scanner, a: string, b: string)
    ensures Outcome(sc, a + b) == match Scan(sc, a) case Err(e) => Err(e) case Ok(sc') => Outcome(sc', b)
  {
    ScanAppend(sc, a, b);
  }

  /** Collecting a name up to the character that ends it. */
  lemma OutcomeName(sc: Scanner, rest: string, j: nat)
    requires sc.collecting && !sc.justStarted && j <= |rest| && Without(rest[..j], sc.doneOn)
    ensures Outcome(sc, rest) == Outcome(sc.(current := sc.current + rest[..j]), rest[j..])
  {
    ScanName(sc, rest[..j]);
    OutcomeAfter(sc, rest[..j], rest[j..]);
    assert rest == rest[..j] + rest[j..];
  }

  /** Opened braces that are never closed. */
  lemma FaultAtEnd(sc: Scanner, rest: string)
    requires Neutral(sc) && Without(rest, "}")
    ensures Agrees(Outcome(Opened(sc, '{'), rest), if rest in sc.reqs && sc.reqs[rest] != "" then None else Some(KeyError))
  {
    var sc1 := Opened(sc, '{');
    ScanName(sc1, rest);
    assert sc1.current + rest == rest;
  }

  /** The closing of braces around some text. */
  lemma FaultInBraces(sc: Scanner, inside: string, rest: string) returns (sc': Scanner)
    requires Neutral(sc) && Without(inside, "}")
    ensures inside == "" ==> Outcome(Opened(sc, '{'), inside + ("}" + rest)) == Err(IndexError)
    ensures inside != "" ==> Neutral(sc') && sc'.reqs == ReqsInside(inside, sc.reqs)
                             && Outcome(Opened(sc, '{'), inside + ("}" + rest)) == Outcome(sc', rest)
  {
    var sc1 := Opened(sc, '{');
    var sc2 := sc1.(current := inside);
    ScanName(sc1, inside);
    assert sc1.current + inside == inside;
    OutcomeAfter(sc1, inside, "}" + rest);
    OutcomeFirst(sc2, "}" + rest);
    assert ("}" + rest)[0] == '}' && ("}" + rest)[1..] == rest;
    assert Step(sc2, '}') == CloseVar(sc2, '}');
    sc' := sc;
    if inside != "" {
      sc' := CloseVar(sc2, '}').value;
    }
  }

  /** A variable without braces never fails. */
  lemma FaultInName(sc: Scanner, c: char, rest: string)
    requires Neutral(sc) && c in ":*"
    ensures var sc1 := Opened(sc, c);
            if rest == "" || NameLength(rest) == |rest| - 1 then Outcome(sc1, rest).Ok?
            else exists sc' :: Neutral(sc') && sc'.reqs == sc.reqs && Outcome(sc1, rest) == Outcome(sc', rest[NameLength(rest) + 2..])
  {
    var sc1 := Opened(sc, c);
    if rest != "" {
      var j := NameLength(rest);
      var stops := NameStops(rest);
      var sc2 := sc1.(justStarted := false, doneOn := stops, current := if rest[0] == '(' then "" else [rest[0]]);
      OutcomeFirst(sc1, rest);
      assert Step(sc1, rest[0]) == Ok(sc2);
      OutcomeName(sc2, rest[1..], j);
      var sc3 := sc2.(current := sc2.current + rest[1..][..j]);
      if j < |rest| - 1 {
        var d := rest[1..][j];
        OutcomeFirst(sc3, rest[1..][j..]);
        assert rest[1..][j..][0] == d && rest[1..][j..][1..] == rest[j + 2..];
        assert Step(sc3, d) == CloseVar(sc3, d);
        var sc' := CloseVar(sc3, d).value;
        assert Neutral(sc') && sc'.reqs == sc.reqs;
      } else {
        assert rest[1..][j..] == "";
      }
    }
  }

  /** From any neutral state, scanning fails exactly as the text says. */
  lemma {:induction false} FaultExactly(sc: Scanner, path: string)
    requires Neutral(sc)
    ensures Agrees(Outcome(sc, path), Fault(path, sc.reqs))
    decreases |path|
  {
    if path == "" {
    } else {
      var c := path[0];
      var rest := path[1..];
      OutcomeFirst(sc, path);
      if c == '{' {
        assert Step(sc, c) == Ok(Opened(sc, c));
        var j := Stop(rest, "}");
        if j == |rest| {
          assert rest[..j] == rest;
          FaultAtEnd(sc, rest);
        } else {
          assert rest == rest[..j] + ("}" + rest[j + 1..]);
          var sc' := FaultInBraces(sc, rest[..j], rest[j + 1..]);
          if j > 0 {
            FaultExactly(sc', rest[j + 1..]);
          }
        }
      } else if c in ":*" {
        assert Step(sc, c) == Ok(Opened(sc, c));
        FaultInName(sc, c, rest);
        if rest != "" && NameLength(rest) < |rest| - 1 {
          var sc' :| Neutral(sc') && sc'.reqs == sc.reqs && Outcome(Opened(sc, c), rest) == Outcome(sc', rest[NameLength(rest) + 2..]);
          FaultExactly(sc', rest[NameLength(rest) + 2..]);
        }
      } else {
        var sc' := sc.(current := sc.current + [c]);
        assert Step(sc, c) == Ok(sc');
        FaultExactly(sc', rest);
      }
    }
  }

  /**
   For every route, well-formed or not: `tokenize` raises exactly if a pair of braces is
   empty, which is an `IndexError`, or one is never closed and its text is no name with
   an expression, which is a `KeyError`. Neither is made a `ValueError`.
   */
  lemma TokenizeFailsExactly(path: string)
    ensures Agrees(Tokens(path), Fault(path, map[]))
  {
    FaultExactly(START, path);
  }
}
