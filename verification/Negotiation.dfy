/**
 Content negotiation: the media types a method can produce, ranked, and the choice among
 them by the `Accept` header. Dictionaries are iterated in an order that is a parameter,
 so that what is proved holds of every order.
 */
module Negotiation {
  import opened Messages

  // ----- the order of (quality, name) pairs

  /** `a < b` for strings. */
  predicate Before(a: string, b: string) {
    if b == "" then false
    else if a == "" then true
    else a[0] < b[0] || (a[0] == b[0] && Before(a[1..], b[1..]))
  }

  lemma {:induction false} BeforeIsTotal(a: string, b: string)
    ensures Before(a, b) || a == b || Before(b, a)
    ensures !(Before(a, b) && Before(b, a)) && !Before(a, a)
  {
    if a == "" {
    } else if b == "" {
      BeforeIsTotal(a[1..], a[1..]);
    } else {
      BeforeIsTotal(a[1..], b[1..]);
      BeforeIsTotal(a[1..], a[1..]);
      assert a == [a[0]] + a[1..] && b == [b[0]] + b[1..];
    }
  }

  lemma {:induction false} BeforeIsTransitive(a: string, b: string, c: string)
    requires Before(a, b) && Before(b, c)
    ensures Before(a, c)
  {
    if a == "" || !(a[0] == b[0] == c[0]) {
    } else {
      BeforeIsTransitive(a[1..], b[1..], c[1..]);
    }
  }

  /** It is the order of a dictionary: a beginning comes first, otherwise the first character that differs decides. */
  lemma {:induction false} BeforeIsLexicographic(a: string, b: string)
    ensures Before(a, b) <==>
            || (a <= b && a != b)
            || exists n: nat :: n < |a| && n < |b| && a[..n] == b[..n] && a[n] < b[n]
  {
    forall n: nat | 0 < n < |a| && n < |b| && a[..n] == b[..n] ensures a[0] == b[0] {
      assert a[..n][0] == b[..n][0];
    }
    if a == "" || b == "" {
    } else if a[0] != b[0] {
      if a[0] < b[0] {
        assert a[..0] == b[..0];
      }
    } else {
      BeforeIsLexicographic(a[1..], b[1..]);
      assert a == [a[0]] + a[1..] && b == [b[0]] + b[1..];
      assert (a[1..] <= b[1..] && a[1..] != b[1..]) <==> (a <= b && a != b);
      if n: nat :| n < |a| && n < |b| && a[..n] == b[..n] && a[n] < b[n] {
        assert n > 0 && a[1..][..n - 1] == a[..n][1..] && b[1..][..n - 1] == b[..n][1..];
        assert a[1..][n - 1] < b[1..][n - 1];
      }
      if n: nat :| n < |a[1..]| && n < |b[1..]| && a[1..][..n] == b[1..][..n] && a[1..][n] < b[1..][n] {
        assert a[..n + 1] == [a[0]] + a[1..][..n] && b[..n + 1] == [b[0]] + b[1..][..n];
        assert a[n + 1] < b[n + 1];
      }
    }
  }

  /** Whether type `a` is ranked above type `b`. */
  predicate Above(types: map<string, real>, a: string, b: string)
    requires a in types && b in types
  {
    types[a] > types[b] || (types[a] == types[b] && Before(b, a))
  }

  lemma AboveIsTotal(types: map<string, real>, a: string, b: string)
    requires a in types && b in types
    ensures a == b || Above(types, a, b) || Above(types, b, a)
    ensures !(Above(types, a, b) && Above(types, b, a)) && !Above(types, a, a)
  {
    BeforeIsTotal(a, b);
    BeforeIsTotal(a, a);
  }

  lemma AboveIsTransitive(types: map<string, real>, a: string, b: string, c: string)
    requires a in types && b in types && c in types && Above(types, a, b) && Above(types, b, c)
    ensures Above(types, a, c)
  {
    if types[a] == types[b] == types[c] {
      BeforeIsTransitive(c, b, a);
    }
  }

  /** A list of types of the table in the order of rank. */
  ghost predicate Descending(types: map<string, real>, ranked: seq<string>) {
    && (forall m :: m in ranked ==> m in types)
    && (forall i, j :: 0 <= i < j < |ranked| ==> Above(types, ranked[i], ranked[j]))
  }

  ghost predicate Ranking(types: map<string, real>, ranked: seq<string>) {
    Descending(types, ranked) && forall m :: m in types ==> m in ranked
  }

  /** `available_mimetypes`: `order` are the keys of the table in whatever order it yields them. */
  method AvailableMimetypes(types: map<string, real>, order: seq<string>) returns (ranked: seq<string>)
    requires forall m :: m in order <==> m in types
    requires forall i, j :: 0 <= i < j < |order| ==> order[i] != order[j]
    ensures Ranking(types, ranked)
    // the best come first, and of equal ones those later in the alphabet
    ensures forall m :: m in ranked <==> m in types
    ensures forall i, j :: 0 <= i < j < |ranked| ==>
              || types[ranked[i]] > types[ranked[j]]
              || (types[ranked[i]] == types[ranked[j]] && Before(ranked[j], ranked[i]))
  {
    ranked := [];
    for i := 0 to |order|
      invariant Descending(types, ranked)
      invariant forall m :: m in ranked <==> m in order[..i]
    {
      assert order[i] !in order[..i];
      ranked := Insert(types, ranked, order[i]);
      assert order[..i + 1] == order[..i] + [order[i]];
    }
    assert order[..|order|] == order;
  }

  method Insert(types: map<string, real>, ranked: seq<string>, m: string) returns (more: seq<string>)
    requires Descending(types, ranked) && m in types && m !in ranked
    ensures Descending(types, more)
    ensures forall x :: x in more <==> x in ranked || x == m
  {
    var i := 0;
    while i < |ranked| && Above(types, ranked[i], m)
      invariant i <= |ranked|
      invariant forall j :: 0 <= j < i ==> Above(types, ranked[j], m)
    {
      i := i + 1;
    }
    more := ranked[..i] + [m] + ranked[i..];
    assert ranked == ranked[..i] + ranked[i..];
    InsertKeeps(types, ranked, m, i);
  }

  lemma InsertKeeps(types: map<string, real>, ranked: seq<string>, m: string, i: nat)
    requires Descending(types, ranked) && m in types && m !in ranked && i <= |ranked|
    requires forall j :: 0 <= j < i ==> Above(types, ranked[j], m)
    requires i < |ranked| ==> !Above(types, ranked[i], m)
    ensures Descending(types, ranked[..i] + [m] + ranked[i..])
  {
    if i < |ranked| {
      AboveIsTotal(types, ranked[i], m);
      forall j | i < j < |ranked| ensures Above(types, m, ranked[j]) {
        AboveIsTransitive(types, m, ranked[i], ranked[j]);
      }
    }
  }

  /** The ranking does not depend on the order of the table. */
  lemma {:induction false} RankingIsUnique(types: map<string, real>, a: seq<string>, b: seq<string>)
    requires Ranking(types, a) && Ranking(types, b)
    ensures a == b
    decreases |a|
  {
    assert |b| > 0 ==> b[0] in types && b[0] in a;
    if a == [] {
      return;
    }
    assert a[0] in types && a[0] in b && b[0] in types && b[0] in a;
    if a[0] != b[0] {
      var i :| 0 <= i < |b| && b[i] == a[0];
      var j :| 0 <= j < |a| && a[j] == b[0];
      AboveIsTotal(types, a[0], b[0]);
    }
    var rest := types - {a[0]};
    RankingTail(types, a);
    RankingTail(types, b);
    RankingIsUnique(rest, a[1..], b[1..]);
    assert a == [a[0]] + a[1..] && b == [b[0]] + b[1..];
  }

  lemma RankingTail(types: map<string, real>, a: seq<string>)
    requires Ranking(types, a) && a != []
    ensures Ranking(types - {a[0]}, a[1..])
  {
    var rest := types - {a[0]};
    forall m | m in a[1..] ensures m in rest {
      var i :| 0 <= i < |a| - 1 && a[1..][i] == m;
      AboveIsTotal(types, a[0], a[i + 1]);
    }
    forall m | m in rest ensures m in a[1..] {
      var i :| 0 <= i < |a| && a[i] == m;
      assert a[1..][i - 1] == m;
    }
  }

  // ----- the choice

  /** The header names the type, with a quality that is not zero. */
  predicate Explicit(accept: map<string, real>, m: string) {
    m in accept && accept[m] != 0.0
  }

  predicate Refused(accept: map<string, real>, m: string) {
    m in accept && accept[m] == 0.0
  }

  predicate EndsWithSlashStar(s: string) {
    |s| >= 2 && s[|s| - 2..] == "/*"
  }

  /** Whether range `w` of the header covers type `m`; the quality of the range plays no role. */
  predicate Covers(w: string, m: string) {
    w == "*" || w == "*/*" || (EndsWithSlashStar(w) && w[..|w| - 1] <= m)
  }

  /** A range covers everything, or all of one kind: the range ends in a slash and a star, and the type begins with what stands before the star. */
  lemma CoversExactly(w: string, m: string)
    ensures Covers(w, m) <==> w == "*" || w == "*/*" || exists kind: string :: w == kind + "/*" && kind + "/" <= m
  {
    if EndsWithSlashStar(w) {
      var kind := w[..|w| - 2];
      assert w == kind + w[|w| - 2..];
      assert w[..|w| - 1] == kind + "/";
    }
    forall kind: string | w == kind + "/*" ensures EndsWithSlashStar(w) && w[..|w| - 1] == kind + "/" {
    }
  }

  /** What the code takes for acceptable. */
  ghost predicate Acceptable(accept: map<string, real>, m: string) {
    Explicit(accept, m) || (!Refused(accept, m) && exists w :: w in accept && Covers(w, m))
  }

  /** Whether a type is in question for a range: any type, or those that begin like it. */
  predicate InQuestion(w: string, any: bool, m: string) {
    any || (w != "" && w[..|w| - 1] <= m)
  }

  /** The first type of a list that is in question and not refused. */
  method FirstCovered(available: seq<string>, accept: map<string, real>, w: string, any: bool) returns (choice: Option<string>)
    ensures choice.None? ==> forall m :: m in available && InQuestion(w, any, m) ==> Refused(accept, m)
    ensures choice.Some? ==>
              exists i :: 0 <= i < |available| && choice.value == available[i]
                          && InQuestion(w, any, available[i]) && !Refused(accept, available[i])
                          && forall j :: 0 <= j < i && InQuestion(w, any, available[j]) ==> Refused(accept, available[j])
  {
    for i := 0 to |available|
      invariant forall j :: 0 <= j < i && InQuestion(w, any, available[j]) ==> Refused(accept, available[j])
    {
      if InQuestion(w, any, available[i]) && !Refused(accept, available[i]) {
        return Some(available[i]);
      }
    }
    return None;
  }

  /** The header as a dictionary: later elements win, and without any everything is accepted. */
  function AcceptOf(elements: seq<(string, real)>): (accept: map<string, real>)
    ensures accept != map[]
    ensures elements == [] ==> forall m :: Acceptable(accept, m)
  {
    var named := Collected(elements);
    var all := map["*/*" := 1.0];
    assert "*/*" in all && forall m :: Covers("*/*", m);
    if named == map[] then all else named
  }

  function Collected(elements: seq<(string, real)>): map<string, real> {
    if elements == [] then map[]
    else
      var last := |elements| - 1;
      Collected(elements[..last])[elements[last].0 := elements[last].1]
  }

  lemma {:induction false} CollectedIsLast(elements: seq<(string, real)>)
    ensures forall w :: w in Collected(elements) ==> exists i :: 0 <= i < |elements| && elements[i].0 == w
    ensures forall i :: 0 <= i < |elements| ==> elements[i].0 in Collected(elements)
    ensures forall i :: 0 <= i < |elements| && (forall j :: i < j < |elements| ==> elements[j].0 != elements[i].0) ==>
              Collected(elements)[elements[i].0] == elements[i].1
  {
    if elements != [] {
      var last := |elements| - 1;
      var init := elements[..last];
      CollectedIsLast(init);
      forall w | w in Collected(elements) ensures exists i :: 0 <= i < |elements| && elements[i].0 == w {
        if w in Collected(init) {
          var i :| 0 <= i < |init| && init[i].0 == w;
          assert elements[i].0 == w;
        } else {
          assert elements[last].0 == w;
        }
      }
      forall i | 0 <= i < |elements| ensures elements[i].0 in Collected(elements) {
        assert i < last ==> elements[i] == init[i];
      }
      forall i | 0 <= i < |elements| && (forall j :: i < j < |elements| ==> elements[j].0 != elements[i].0)
        ensures Collected(elements)[elements[i].0] == elements[i].1
      {
        if i < last {
          assert elements[i] == init[i] && elements[last].0 != elements[i].0;
          assert forall j :: i < j < |init| ==> init[j].0 != init[i].0;
        }
      }
    }
  }

  /** A header that names something: its ranges are the named ones, and each has the quality of its last element. */
  lemma HeaderIsRead(elements: seq<(string, real)>)
    requires elements != []
    ensures forall w :: w in AcceptOf(elements) <==> exists i :: 0 <= i < |elements| && elements[i].0 == w
    ensures forall i :: 0 <= i < |elements| && (forall j :: i < j < |elements| ==> elements[j].0 != elements[i].0) ==>
              AcceptOf(elements)[elements[i].0] == elements[i].1
  {
    CollectedIsLast(elements);
    assert elements[0].0 in Collected(elements);
  }

  // ----- what the header means

  /** How specific a range is; a range of everything is the least. */
  function Weight(w: string): nat {
    if w == "*" || w == "*/*" then 0 else |w|
  }

  /** Of the ranges that cover a type, one of the most specific ones. */
  ghost predicate Decides(accept: map<string, real>, w: string, m: string) {
    w in accept && Covers(w, m) && forall v :: v in accept && Covers(v, m) ==> Weight(v) <= Weight(w)
  }

  /** A range of everything decides only where there is no other, and of the others the longest does. */
  lemma SpecificDecides(accept: map<string, real>, w: string, m: string)
    requires w in accept && Covers(w, m) && w != "*" && w != "*/*"
    ensures !Decides(accept, "*", m) && !Decides(accept, "*/*", m)
    ensures forall v :: Decides(accept, v, m) ==> |v| >= |w|
  {
    assert |w| >= 2;
  }

  /** What the header accepts: the type itself decides, or else the most specific range, and a quality of zero refuses. */
  ghost predicate Intended(accept: map<string, real>, m: string) {
    Explicit(accept, m) || (m !in accept && exists w :: Decides(accept, w, m) && accept[w] != 0.0)
  }

  /**
   The code agrees with the header about a type exactly when the header names the type, or
   has no range for it, or the most specific range for it is not refused.
   */
  lemma AgreesExactly(accept: map<string, real>, m: string)
    ensures (Acceptable(accept, m) <==> Intended(accept, m))
            <==> || m in accept
                 || (forall w :: w in accept ==> !Covers(w, m))
                 || exists w :: Decides(accept, w, m) && accept[w] != 0.0
    ensures Intended(accept, m) ==> Acceptable(accept, m)
  {
  }

  // ----- the choice of the code

  /** Whether range `w` of the header gives the code a reason to choose `m`. */
  predicate Candidate(accept: map<string, real>, w: string, m: string) {
    Covers(w, m) && !Refused(accept, m)
  }

  /** `m` is the highest ranked type that the `n`-th range covers, and no range before that covers any. */
  ghost predicate Picked(types: map<string, real>, accept: map<string, real>, header: seq<string>, n: nat, m: string) {
    && n < |header| && m in types && Candidate(accept, header[n], m)
    && (forall x :: x in types && Candidate(accept, header[n], x) ==> x == m || Above(types, m, x))
    && (forall k, x :: 0 <= k < n && x in types ==> !Candidate(accept, header[k], x))
  }

  /** The choice: the highest ranked of the types that are named, or the pick of the first range that covers any, or none. */
  ghost predicate Chosen(types: map<string, real>, accept: map<string, real>, header: seq<string>, choice: Option<string>) {
    if exists m :: m in types && Explicit(accept, m) then
      && choice.Some? && choice.value in types && Explicit(accept, choice.value)
      && forall m :: m in types && Explicit(accept, m) ==> m == choice.value || Above(types, choice.value, m)
    else if choice.Some? then exists n: nat :: Picked(types, accept, header, n, choice.value)
    else forall w, m :: w in header && m in types ==> !Candidate(accept, w, m)
  }

  /** The first candidate of a ranking is the highest ranked one. */
  lemma FirstIsHighest(types: map<string, real>, available: seq<string>, accept: map<string, real>, w: string, i: nat)
    requires Ranking(types, available) && i < |available|
    requires forall j :: 0 <= j < i ==> !Candidate(accept, w, available[j])
    ensures forall m :: m in types && Candidate(accept, w, m) ==> m == available[i] || Above(types, available[i], m)
  {
    forall m | m in types && Candidate(accept, w, m) ensures m == available[i] || Above(types, available[i], m) {
      var j :| 0 <= j < |available| && available[j] == m;
    }
  }

  /** A range is tried as it stands in the code: first as one of everything, then by its beginning. */
  method PickFrom(types: map<string, real>, available: seq<string>, accept: map<string, real>, w: string) returns (choice: Option<string>)
    requires Ranking(types, available)
    ensures choice.None? ==> forall m :: m in types ==> !Candidate(accept, w, m)
    ensures choice.Some? ==>
              choice.value in types && Candidate(accept, w, choice.value)
              && forall m :: m in types && Candidate(accept, w, m) ==> m == choice.value || Above(types, choice.value, m)
  {
    choice := None;
    var any := w == "*" || w == "*/*";
    if any {
      choice := FirstCovered(available, accept, w, true);
    }
    if choice.None? && EndsWithSlashStar(w) {
      choice := FirstCovered(available, accept, w, false);
    }
    if choice.Some? {
      ghost var i :| 0 <= i < |available| && choice.value == available[i] && InQuestion(w, any, available[i]) && !Refused(accept, available[i])
                     && forall j :: 0 <= j < i && InQuestion(w, any, available[j]) ==> Refused(accept, available[j]);
      FirstIsHighest(types, available, accept, w, i);
    }
  }

  /** `content_type_negotiation`; `header` are the accepted ranges in whatever order the dictionary yields them. */
  method Negotiate(types: map<string, real>, available: seq<string>, accept: map<string, real>, header: seq<string>)
    returns (choice: Option<string>)
    requires Ranking(types, available)
    requires forall w :: w in header <==> w in accept
    ensures Chosen(types, accept, header, choice)
    // sound: an available type, acceptable, and not refused
    ensures choice.Some? ==> choice.value in types && Acceptable(accept, choice.value) && !Refused(accept, choice.value)
    // complete
    ensures choice.None? <==> forall m :: m in types ==> !Acceptable(accept, m)
    // optimal among the types that are named
    ensures forall m :: m in types && Explicit(accept, m) ==>
              choice.Some? && Explicit(accept, choice.value) && choice.value in types
              && (m == choice.value || Above(types, choice.value, m))
  {
    for i := 0 to |available|
      invariant forall j :: 0 <= j < i ==> !Explicit(accept, available[j])
    {
      if available[i] in accept && accept[available[i]] != 0.0 {
        choice := Some(available[i]);
        forall m | m in types && Explicit(accept, m) ensures m == available[i] || Above(types, available[i], m) {
          var j :| 0 <= j < |available| && available[j] == m;
        }
        return;
      }
    }
    assert forall m :: m in types ==> m in available && !Explicit(accept, m);
    for n := 0 to |header|
      invariant forall k, m :: 0 <= k < n && m in types ==> !Candidate(accept, header[k], m)
    {
      choice := PickFrom(types, available, accept, header[n]);
      if choice.Some? {
        assert header[n] in accept && Picked(types, accept, header, n, choice.value);
        return;
      }
    }
    choice := None;
  }

  /** For a given order of the header there is one choice. */
  lemma ChoiceIsUnique(types: map<string, real>, accept: map<string, real>, header: seq<string>, a: Option<string>, b: Option<string>)
    requires Chosen(types, accept, header, a) && Chosen(types, accept, header, b)
    ensures a == b
  {
    if a.Some? && b.Some? {
      AboveIsTotal(types, Named(types, accept, header, a), Named(types, accept, header, b));
    }
  }

  /** The type that was chosen. */
  ghost function Named(types: map<string, real>, accept: map<string, real>, header: seq<string>, choice: Option<string>): (m: string)
    requires Chosen(types, accept, header, choice) && choice.Some?
    ensures m in types && m == choice.value
  {
    choice.value
  }

  // ----- when the choice is the intended one

  /** An intended type was chosen, or none where none is intended. */
  ghost predicate Right(types: map<string, real>, accept: map<string, real>, choice: Option<string>) {
    if choice.Some? then Intended(accept, choice.value) else forall m :: m in types ==> !Intended(accept, m)
  }

  /** An order in which the dictionary may yield its ranges. */
  ghost predicate Listing(accept: map<string, real>, header: seq<string>) {
    && (forall w :: w in header <==> w in accept)
    && (forall i, j :: 0 <= i < j < |header| ==> header[i] != header[j])
  }

  /** `m` is the highest ranked type that range `w` covers and the header does not refuse by its name. */
  ghost predicate Top(types: map<string, real>, accept: map<string, real>, w: string, m: string) {
    && m in types && Candidate(accept, w, m)
    && forall x :: x in types && Candidate(accept, w, x) ==> x == m || Above(types, m, x)
  }

  /** In every order of the header the choice is an intended one. */
  ghost predicate AlwaysRight(types: map<string, real>, accept: map<string, real>) {
    forall header, choice :: Listing(accept, header) && Chosen(types, accept, header, choice) ==> Right(types, accept, choice)
  }

  /** What the table and the header have to be like for that. */
  ghost predicate Harmless(types: map<string, real>, accept: map<string, real>) {
    || (exists m :: m in types && Explicit(accept, m))
    || (forall w, m :: w in accept && Top(types, accept, w, m) ==> exists v :: Decides(accept, v, m) && accept[v] != 0.0)
  }

  lemma HarmlessIsRight(types: map<string, real>, accept: map<string, real>, header: seq<string>, choice: Option<string>)
    requires Harmless(types, accept) && Listing(accept, header) && Chosen(types, accept, header, choice)
    ensures Right(types, accept, choice)
  {
    if exists m :: m in types && Explicit(accept, m) {
    } else if choice.None? {
      forall m | m in types ensures !Intended(accept, m) {
        AgreesExactly(accept, m);
      }
    } else {
      var n: nat :| Picked(types, accept, header, n, choice.value);
      assert header[n] in header && Top(types, accept, header[n], choice.value);
    }
  }

  /** The rest of a listing, in any order. */
  lemma {:induction false} ListRest(ranges: set<string>) returns (rest: seq<string>)
    ensures forall w :: w in rest <==> w in ranges
    ensures forall i, j :: 0 <= i < j < |rest| ==> rest[i] != rest[j]
    decreases |ranges|
  {
    if ranges == {} {
      rest := [];
    } else {
      var w :| w in ranges;
      var more := ListRest(ranges - {w});
      rest := [w] + more;
    }
  }

  /** A range whose highest ranked type is not intended goes wrong when the dictionary yields it first. */
  lemma FirstGoesWrong(types: map<string, real>, accept: map<string, real>, w: string, m: string)
    requires forall x :: x in types ==> !Explicit(accept, x)
    requires w in accept && Top(types, accept, w, m) && !exists v :: Decides(accept, v, m) && accept[v] != 0.0
    ensures !AlwaysRight(types, accept)
  {
    var rest := ListRest(accept.Keys - {w});
    var header := [w] + rest;
    assert Listing(accept, header);
    assert Picked(types, accept, header, 0, m);
    assert Chosen(types, accept, header, Some(m)) && !Right(types, accept, Some(m));
  }

  /**
   For every table and every header: the choice is what the header means, in whatever order
   the dictionary yields the ranges, if and only if a type of the table is named with a
   quality above zero, or for every range the highest ranked type that it covers and that
   is not refused by name has a most specific range with a quality above zero.
   */
  lemma RightInEveryOrder(types: map<string, real>, accept: map<string, real>)
    ensures AlwaysRight(types, accept) <==> Harmless(types, accept)
  {
    if Harmless(types, accept) {
      forall header, choice | Listing(accept, header) && Chosen(types, accept, header, choice) ensures Right(types, accept, choice) {
        HarmlessIsRight(types, accept, header, choice);
      }
    } else {
      var w, m :| w in accept && Top(types, accept, w, m) && !exists v :: Decides(accept, v, m) && accept[v] != 0.0;
      FirstGoesWrong(types, accept, w, m);
    }
  }

  /**
   Whoever refuses everything gets the highest ranked type all the same; whoever refuses
   the texts but nothing else gets a text all the same, if the code comes upon the range
   of everything first.
   */
  lemma RefusedRangeStillCovers(types: map<string, real>, m: string, choice: Option<string>)
    requires m in types && m != "*/*" && m != "*" && (forall x :: x in types ==> x == m || Above(types, m, x))
    requires forall x :: x in types ==> x != "*/*" && x != "text/*"
    ensures Chosen(types, map["*/*" := 0.0], ["*/*"], choice) ==>
              choice == Some(m) && !Right(types, map["*/*" := 0.0], choice)
    ensures "text/" <= m && Chosen(types, map["*/*" := 1.0, "text/*" := 0.0], ["*/*", "text/*"], choice) ==>
              choice == Some(m) && !Right(types, map["*/*" := 1.0, "text/*" := 0.0], choice)
  {
    var nothing := map["*/*" := 0.0];
    if Chosen(types, nothing, ["*/*"], choice) {
      assert Picked(types, nothing, ["*/*"], 0, m);
      ChoiceIsUnique(types, nothing, ["*/*"], Some(m), choice);
    }
    var noText := map["*/*" := 1.0, "text/*" := 0.0];
    if "text/" <= m && Chosen(types, noText, ["*/*", "text/*"], choice) {
      assert Picked(types, noText, ["*/*", "text/*"], 0, m);
      ChoiceIsUnique(types, noText, ["*/*", "text/*"], Some(m), choice);
      assert "text/*"[..5] == "text/" && "text/*"[4..] == "/*" && Covers("text/*", m);
      assert !Decides(noText, "*/*", m);
    }
  }
}
