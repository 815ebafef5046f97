/**
 The scanner that turns a route into a regular expression, with its six flags, and the
 grammar it implements. The method is the loop of the source; `Scan` is the same loop as
 a function of the state and the input, which the lemmas reason about.
 */
module RouteScanner {
  import opened Messages

  datatype Result<+T> = Ok(value: T) | Err(error: ScanError)

  /** `current[0]` of an empty name, and a type that has no default expression. */
  datatype ScanError = IndexError | KeyError

  const DONE_CHARS := "/,;.#"

  /** `re.escape`, character by character. */
  function EscapeChar(c: char): string {
    if 'a' <= c <= 'z' || 'A' <= c <= 'Z' || '0' <= c <= '9' || c == '_' then [c] else ['\\', c]
  }

  function Escape(s: string): string {
    if s == "" then "" else EscapeChar(s[0]) + Escape(s[1..])
  }

  lemma {:induction false} EscapeAppend(a: string, b: string)
    ensures Escape(a + b) == Escape(a) + Escape(b)
  {
    if a == "" {
      assert a + b == b;
    } else {
      EscapeAppend(a[1..], b);
      assert (a + b)[1..] == a[1..] + b && (a + b)[0] == a[0];
      assert EscapeChar(a[0]) + (Escape(a[1..]) + Escape(b)) == (EscapeChar(a[0]) + Escape(a[1..])) + Escape(b);
    }
  }

  function Join(parts: seq<string>): string {
    if parts == [] then "" else parts[0] + Join(parts[1..])
  }

  lemma {:induction false} JoinAppend(a: seq<string>, b: seq<string>)
    ensures Join(a + b) == Join(a) + Join(b)
  {
    if a == [] {
      assert a + b == b;
    } else {
      JoinAppend(a[1..], b);
      assert (a + b)[1..] == a[1..] + b;
      assert a[0] + (Join(a[1..]) + Join(b)) == (a[0] + Join(a[1..])) + Join(b);
    }
  }

  /** `s.split(sep)` */
  function Split(s: string, sep: char): (parts: seq<string>)
    ensures parts != []
    ensures sep !in s ==> parts == [s]
  {
    if s == "" then [""]
    else if s[0] == sep then [""] + Split(s[1..], sep)
    else
      var rest := Split(s[1..], sep);
      assert s == [s[0]] + s[1..];
      [[s[0]] + rest[0]] + rest[1..]
  }

  // ----- `_append`

  function Group(name: string, expression: string): string {
    "(?P<" + name + ">" + expression + ")"
  }

  /** `_append` of a variable; `req` is the expression given for its name, if any. */
  function AppendVar(varType: string, name: string, req: Option<string>): Result<string> {
    if req.Some? && req.value != "" then Ok(Wrap(varType, Group(name, req.value)))
    else if varType == ":" then Ok(Group(name, "[^/]+?"))
    else if varType == "." then Ok(Wrap(varType, Group(name, "[^/.]+?")))
    else if varType == "*" then Ok(Group(name, ".+?"))
    else Err(KeyError)
  }

  function Wrap(varType: string, group: string): string {
    if varType == "." then "(?:\\." + group + ")??" else group
  }

  // ----- the loop

  datatype Scanner = Scanner(collecting: bool, current: string, doneOn: string, varType: string,
                             justStarted: bool, reqs: map<string, string>, regparts: seq<string>)

  const START: Scanner := Scanner(false, "", "", "", false, map[], [])

  function Get(m: map<string, string>, key: string): Option<string> {
    if key in m then Some(m[key]) else None
  }

  /** The end of a variable, at the character that ends it. */
  function CloseVar(sc: Scanner, c: char): Result<Scanner> {
    if sc.varType == "{" && sc.current == "" then Err(IndexError)
    else
      var varType := if sc.varType != "{" then sc.varType else if sc.current[0] == '.' then "." else ":";
      var name := if sc.varType == "{" && sc.current[0] == '.' then sc.current[1..] else sc.current;
      var opts := if sc.varType == "{" then Split(name, ':') else [name];
      var reqs := if |opts| > 1 then sc.reqs[opts[0] := opts[1]] else sc.reqs;
      match AppendVar(varType, opts[0], Get(reqs, opts[0]))
      case Err(e) => Err(e)
      case Ok(part) =>
        var regparts := sc.regparts + [part];
        Ok(Scanner(false, "", "", "", sc.justStarted, reqs,
                   if c in DONE_CHARS then regparts + [Escape([c])] else regparts))
  }

  /** One character of the route. */
  function Step(sc: Scanner, c: char): Result<Scanner> {
    if c in ":*{" && !sc.collecting then
      Ok(sc.(justStarted := c != '{', collecting := true, varType := [c],
             doneOn := if c == '{' then "}" else sc.doneOn,
             regparts := if sc.current != "" then sc.regparts + [Escape(sc.current)] else sc.regparts,
             current := ""))
    else if sc.collecting && sc.justStarted then
      Ok(if c == '(' then sc.(justStarted := false, doneOn := ")")
         else sc.(justStarted := false, current := [c], doneOn := DONE_CHARS + "-"))
    else if sc.collecting && c !in sc.doneOn then
      Ok(sc.(current := sc.current + [c]))
    else if sc.collecting then
      CloseVar(sc, c)
    else
      Ok(sc.(current := sc.current + [c]))
  }

  function Scan(sc: Scanner, path: string): Result<Scanner>
    decreases |path|
  {
    if path == "" then Ok(sc)
    else match Step(sc, path[0])
      case Err(e) => Err(e)
      case Ok(sc') => Scan(sc', path[1..])
  }

  /** What follows the loop. */
  function Finish(sc: Scanner): Result<seq<string>> {
    if sc.collecting then
      match AppendVar(sc.varType, sc.current, Get(sc.reqs, sc.current))
      case Err(e) => Err(e)
      case Ok(part) => Ok(sc.regparts + [part])
    else Ok(if sc.current != "" then sc.regparts + [Escape(sc.current)] else sc.regparts)
  }

  function Tokens(path: string): Result<seq<string>> {
    match Scan(START, path)
    case Err(e) => Err(e)
    case Ok(sc) => Finish(sc)
  }

  /** `tokenize` */
  method Tokenize(path: string) returns (result: Result<seq<string>>)
    ensures result == Tokens(path)
  {
    var reqs: map<string, string> := map[];
    var regparts: seq<string> := [];
    var collecting, current, doneOn, varType, justStarted := false, "", "", "", false;
    for i := 0 to |path|
      invariant Scan(START, path) == Scan(Scanner(collecting, current, doneOn, varType, justStarted, reqs, regparts), path[i..])
    {
      var c := path[i];
      assert path[i..][1..] == path[i+1..];
      ghost var next := Step(Scanner(collecting, current, doneOn, varType, justStarted, reqs, regparts), c);
      if c in ":*{" && !collecting {
        justStarted := true;
        collecting := true;
        varType := [c];
        if c == '{' {
          doneOn := "}";
          justStarted := false;
        }
        if current != "" {
          regparts := regparts + [Escape(current)];
          current := "";
        }
      } else if collecting && justStarted {
        justStarted := false;
        if c == '(' {
          doneOn := ")";
        } else {
          current := [c];
          doneOn := DONE_CHARS + "-";
        }
      } else if collecting && c !in doneOn {
        current := current + [c];
      } else if collecting {
        collecting := false;
        if varType == "{" {
          if current == "" {
            return Err(IndexError);
          }
          if current[0] == '.' {
            varType := ".";
            current := current[1..];
          } else {
            varType := ":";
          }
          var opts := Split(current, ':');
          if |opts| > 1 {
            current := opts[0];
            reqs := reqs[current := opts[1]];
          } else {
            SplitOnce(current, ':');
          }
        }
        var part := AppendVar(varType, current, Get(reqs, current));
        if part.Err? {
          return Err(part.error);
        }
        regparts := regparts + [part.value];
        if c in DONE_CHARS {
          regparts := regparts + [Escape([c])];
        }
        doneOn, varType, current := "", "", "";
      } else {
        current := current + [c];
      }
      assert next == Ok(Scanner(collecting, current, doneOn, varType, justStarted, reqs, regparts));
    }
    assert path[|path|..] == "";
    if collecting {
      var part := AppendVar(varType, current, Get(reqs, current));
      if part.Err? {
        return Err(part.error);
      }
      regparts := regparts + [part.value];
    } else if current != "" {
      regparts := regparts + [Escape(current)];
    }
    return Ok(regparts);
  }

  /** `regexpath`: the expression between the anchors, or the error that `tokenize` raises. */
  function RegexPath(path: string): Result<string> {
    match Tokens(path)
    case Err(e) => Err(e)
    case Ok(parts) => Ok("^" + Join(parts) + "$")
  }

  lemma {:induction false} SplitOnce(s: string, sep: char)
    requires |Split(s, sep)| == 1
    ensures Split(s, sep) == [s]
  {
    if s == "" {
    } else {
      assert s[0] != sep;
      assert s == [s[0]] + s[1..];
      SplitOnce(s[1..], sep);
    }
  }

  lemma {:induction false} ScanAppend(sc: Scanner, a: string, b: string)
    ensures Scan(sc, a + b) == match Scan(sc, a) case Err(e) => Err(e) case Ok(sc') => Scan(sc', b)
    decreases |a|
  {
    if a == "" {
      assert a + b == b;
    } else {
      assert (a + b)[1..] == a[1..] + b;
      match Step(sc, a[0])
      case Err(_) =>
      case Ok(sc') => ScanAppend(sc', a[1..], b);
    }
  }
}
