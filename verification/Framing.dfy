/**
 Messages in a stream of bytes: what is assumed of a parser, and what a beginning of some
 responses consists of.
 */
module Framing {
  import opened Messages

  /** The bytes of a response; how they were cut into chunks does not show. */
  function BytesOf(r: Response): Bytes {
    Flatten(Render(r))
  }

  function Joined(rs: seq<Response>): Bytes {
    if rs == [] then [] else BytesOf(rs[0]) + Joined(rs[1..])
  }

  lemma {:induction false} JoinedAppend(a: seq<Response>, b: seq<Response>)
    ensures Joined(a + b) == Joined(a) + Joined(b)
  {
    if a == [] {
      assert a + b == b;
    } else {
      var whole := a + b;
      assert whole[0] == a[0] && whole[1..] == a[1..] + b;
      calc {
        Joined(whole);
        BytesOf(a[0]) + Joined(a[1..] + b);
        { JoinedAppend(a[1..], b); }
        BytesOf(a[0]) + (Joined(a[1..]) + Joined(b));
        Joined(a) + Joined(b);
      }
    }
  }

  /** The messages completed by the bytes received so far. */
  type Parser = Bytes -> seq<Response>

  /** Which responses are framed as the answer to the `i`-th request; it may matter, for instance, that this was a HEAD. */
  type Frame = (nat, Response) -> bool

  predicate AllFramed(framed: Frame, rs: seq<Response>) {
    forall i :: 0 <= i < |rs| ==> framed(i, rs[i])
  }

  predicate BeginsProperly(tail: Bytes, r: Response) {
    |tail| < |BytesOf(r)| && tail <= BytesOf(r)
  }

  /** Nothing, or a proper beginning of a framed answer to the `i`-th request. */
  ghost predicate Unfinished(framed: Frame, i: nat, tail: Bytes) {
    tail == [] || exists r :: framed(i, r) && BeginsProperly(tail, r)
  }

  predicate SameBytes(a: seq<Response>, b: seq<Response>) {
    |a| == |b| && forall i :: 0 <= i < |a| ==> BytesOf(a[i]) == BytesOf(b[i])
  }

  predicate Finds(parse: Parser, rs: seq<Response>, tail: Bytes) {
    SameBytes(parse(Joined(rs) + tail), rs)
  }

  /** Given some framed responses and an unfinished one, the parser finds the former. */
  ghost predicate Parses(parse: Parser, framed: Frame) {
    forall rs, tail :: AllFramed(framed, rs) && Unfinished(framed, |rs|, tail) ==> Finds(parse, rs, tail)
  }

  /** No framed answer begins another one to the same request, and none is empty. */
  ghost predicate PrefixFree(framed: Frame) {
    && (forall i, a, b :: framed(i, a) && framed(i, b) && BytesOf(a) <= BytesOf(b) ==> BytesOf(a) == BytesOf(b))
    && (forall i, a :: framed(i, a) ==> BytesOf(a) != [])
  }

  ghost predicate Complete(framed: Frame, i: nat, bytes: Bytes, r: Response) {
    framed(i, r) && BytesOf(r) != [] && BytesOf(r) <= bytes
  }

  /** The parser that takes a framed response off as soon as it is complete. */
  ghost function Split(framed: Frame, i: nat, bytes: Bytes): seq<Response>
    decreases |bytes|
  {
    if exists r :: Complete(framed, i, bytes, r) then
      var r :| Complete(framed, i, bytes, r);
      [r] + Split(framed, i + 1, bytes[|BytesOf(r)|..])
    else []
  }

  predicate FramedFrom(framed: Frame, i: nat, rs: seq<Response>) {
    forall j :: 0 <= j < |rs| ==> framed(i + j, rs[j])
  }

  /** Of two beginnings of the same bytes one begins the other. */
  lemma Comparable(a: Bytes, b: Bytes, bytes: Bytes)
    requires a <= bytes && b <= bytes
    ensures a <= b || b <= a
  {
  }

  /** With a framed response in front, the parser takes off one with the same bytes. */
  lemma SplitFirst(framed: Frame, i: nat, first: Response, rest: Bytes)
    requires PrefixFree(framed) && framed(i, first)
    ensures var found := Split(framed, i, BytesOf(first) + rest);
            found != [] && BytesOf(found[0]) == BytesOf(first) && found[1..] == Split(framed, i + 1, rest)
  {
    var bytes := BytesOf(first) + rest;
    assert Complete(framed, i, bytes, first);
    var r :| Complete(framed, i, bytes, r) && Split(framed, i, bytes) == [r] + Split(framed, i + 1, bytes[|BytesOf(r)|..]);
    assert Complete(framed, i, bytes, r);
    assert BytesOf(r) <= bytes;
    Comparable(BytesOf(r), BytesOf(first), bytes);
    assert bytes[|BytesOf(first)|..] == rest;
  }

  /** Of an unfinished response nothing is taken off. */
  lemma SplitNone(framed: Frame, i: nat, tail: Bytes)
    requires PrefixFree(framed) && Unfinished(framed, i, tail)
    ensures Split(framed, i, tail) == []
  {
    if r :| Complete(framed, i, tail, r) {
      assert false;
    }
  }

  lemma SameBytesFirst(a: seq<Response>, b: seq<Response>)
    requires a != [] && b != [] && BytesOf(a[0]) == BytesOf(b[0]) && SameBytes(a[1..], b[1..])
    ensures SameBytes(a, b)
  {
    forall i | 0 <= i < |a| ensures BytesOf(a[i]) == BytesOf(b[i]) {
      if i > 0 {
        assert a[i] == a[1..][i - 1] && b[i] == b[1..][i - 1];
      }
    }
  }

  lemma JoinedFirst(rs: seq<Response>, tail: Bytes)
    requires rs != []
    ensures Joined(rs) + tail == BytesOf(rs[0]) + (Joined(rs[1..]) + tail)
  {
  }

  lemma SplitStep(framed: Frame, i: nat, rs: seq<Response>, tail: Bytes)
    requires PrefixFree(framed) && rs != [] && framed(i, rs[0])
    requires SameBytes(Split(framed, i + 1, Joined(rs[1..]) + tail), rs[1..])
    ensures SameBytes(Split(framed, i, Joined(rs) + tail), rs)
  {
    JoinedFirst(rs, tail);
    SplitFirst(framed, i, rs[0], Joined(rs[1..]) + tail);
    SameBytesFirst(Split(framed, i, Joined(rs) + tail), rs);
  }

  lemma FramedFirst(framed: Frame, i: nat, rs: seq<Response>)
    requires rs != [] && FramedFrom(framed, i, rs)
    ensures framed(i, rs[0]) && FramedFrom(framed, i + 1, rs[1..])
  {
    assert framed(i + 0, rs[0]);
    forall j | 0 <= j < |rs[1..]| ensures framed(i + 1 + j, rs[1..][j]) {
      assert framed(i + (j + 1), rs[j + 1]);
    }
  }

  lemma {:induction false} SplitFinds(framed: Frame, i: nat, rs: seq<Response>, tail: Bytes)
    requires PrefixFree(framed) && FramedFrom(framed, i, rs) && Unfinished(framed, i + |rs|, tail)
    ensures SameBytes(Split(framed, i, Joined(rs) + tail), rs)
    decreases |rs|
  {
    if rs == [] {
      assert Joined(rs) + tail == tail;
      SplitNone(framed, i, tail);
    } else {
      FramedFirst(framed, i, rs);
      SplitFinds(framed, i + 1, rs[1..], tail);
      SplitStep(framed, i, rs, tail);
    }
  }

  /** What is assumed of the parser can be had for any framing in which no message begins another. */
  lemma FramingIsPossible(framed: Frame, parse: Parser)
    requires PrefixFree(framed) && forall bytes :: parse(bytes) == Split(framed, 0, bytes)
    ensures Parses(parse, framed)
  {
    forall rs, tail | AllFramed(framed, rs) && Unfinished(framed, |rs|, tail) ensures Finds(parse, rs, tail) {
      SplitFinds(framed, 0, rs, tail);
    }
  }

  // ----- a beginning of some responses

  /** How many of the responses are complete in the first `n` bytes. */
  function Whole(rs: seq<Response>, n: nat): (m: nat)
    ensures m <= |rs|
  {
    if rs == [] || n < |BytesOf(rs[0])| then 0 else 1 + Whole(rs[1..], n - |BytesOf(rs[0])|)
  }

  /** The bytes after those. */
  function Tail(rs: seq<Response>, n: nat): Bytes {
    if rs == [] then []
    else if n < |BytesOf(rs[0])| then BytesOf(rs[0])[..n]
    else Tail(rs[1..], n - |BytesOf(rs[0])|)
  }

  lemma TakeJoined(a: Bytes, b: Bytes, n: nat)
    requires n <= |a + b|
    ensures n <= |a| ==> (a + b)[..n] == a[..n]
    ensures n >= |a| ==> (a + b)[..n] == a + b[..n - |a|]
  {
  }

  lemma JoinedTake(rs: seq<Response>, m: nat)
    requires 0 < m <= |rs|
    ensures Joined(rs[..m]) == BytesOf(rs[0]) + Joined(rs[1..][..m - 1])
  {
    assert rs[..m][1..] == rs[1..][..m - 1];
  }

  /** A beginning of the bytes of some responses: those that are complete, and a proper beginning of the next. */
  lemma {:induction false} Cut(rs: seq<Response>, n: nat)
    requires n <= |Joined(rs)|
    ensures Joined(rs)[..n] == Joined(rs[..Whole(rs, n)]) + Tail(rs, n)
    ensures if Whole(rs, n) == |rs| then Tail(rs, n) == [] else BeginsProperly(Tail(rs, n), rs[Whole(rs, n)])
  {
    if rs == [] {
    } else {
      var first := BytesOf(rs[0]);
      TakeJoined(first, Joined(rs[1..]), n);
      if n < |first| {
        assert rs[..0] == [];
      } else {
        var m := Whole(rs[1..], n - |first|);
        Cut(rs[1..], n - |first|);
        JoinedTake(rs, m + 1);
      }
    }
  }

  lemma {:induction false} WholeGrows(rs: seq<Response>, n: nat, n': nat)
    requires n <= n'
    ensures Whole(rs, n) <= Whole(rs, n')
  {
    if rs == [] || n < |BytesOf(rs[0])| {
    } else {
      WholeGrows(rs[1..], n - |BytesOf(rs[0])|, n' - |BytesOf(rs[0])|);
    }
  }

  lemma {:induction false} WholeHolds(rs: seq<Response>, m: nat, n: nat)
    requires m <= |rs| && |Joined(rs[..m])| <= n
    ensures m <= Whole(rs, n)
  {
    if m == 0 {
    } else {
      JoinedTake(rs, m);
      WholeHolds(rs[1..], m - 1, n - |BytesOf(rs[0])|);
    }
  }

  /** The parser finds the responses that are complete in a beginning of framed ones. */
  lemma BeginningParses(parse: Parser, framed: Frame, rs: seq<Response>, n: nat)
    requires Parses(parse, framed) && AllFramed(framed, rs) && n <= |Joined(rs)|
    ensures SameBytes(parse(Joined(rs)[..n]), rs[..Whole(rs, n)])
  {
    var m := Whole(rs, n);
    Cut(rs, n);
    if m < |rs| {
      assert framed(m, rs[m]) && BeginsProperly(Tail(rs, n), rs[m]);
    }
    assert Finds(parse, rs[..m], Tail(rs, n));
  }
}
