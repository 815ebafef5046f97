/**
 The parser of a client connection and the requests it is told. Every read hands the parser
 the requests that wait, and every message that begins takes the first of them away; the
 requests that wait lose one only when a message ends. So a message that lies across two
 reads makes the next one be parsed for the wrong request.
 */
module ClientParser {
  import opened Messages
  import opened HttpClient

  /** What the bytes of a read hold: messages that begin and messages that end. */
  datatype Mark = Begins | Ends

  /**
   The requests written so far, how many of them were taken by messages that ended, and
   whether a message has begun that has not ended. History: for every message that began
   the request it was parsed for, and whether the read it began in found another message
   open; the number of messages that ended with no request left for them; and whether the
   parser raised for want of a request.
   */
  datatype Feed = Feed(sent: seq<Exchange>, popped: nat, open: bool, given: seq<Exchange>, late: seq<bool>,
                       surplus: nat, raised: bool)

  const UNFED: Feed := Feed([], 0, false, [], [], 0, false)

  /** The requests that wait. */
  function Waiting(f: Feed): seq<Exchange>
    requires f.popped <= |f.sent|
  {
    f.sent[f.popped..]
  }

  /** The marks of a read alternate. */
  predicate Alternate(open: bool, marks: seq<Mark>)
    decreases |marks|
  {
    marks == [] || ((marks[0].Begins? <==> !open) && Alternate(!open, marks[1..]))
  }

  function Begin(f: Feed, request: Exchange, late: bool): Feed {
    f.(open := true, given := f.given + [request], late := f.late + [late])
  }

  function End(f: Feed): Feed {
    if f.popped < |f.sent| then f.(open := false, popped := f.popped + 1)
    else f.(open := false, surplus := f.surplus + 1)
  }

  /** A read with `left` still in the parser's hands, which found a message open if `late`. */
  function Marked(f: Feed, left: seq<Exchange>, late: bool, marks: seq<Mark>): Feed
    decreases |marks|
  {
    if marks == [] then f
    else if marks[0].Ends? then Marked(End(f), left, late, marks[1..])
    else if left == [] then f.(raised := true)
    else Marked(Begin(f, left[0], late), left[1..], late, marks[1..])
  }

  datatype Step = Write(client: Exchange) | Read(marks: seq<Mark>)

  predicate Possible(f: Feed, step: Step) {
    match step
    case Write(client) => client !in f.sent
    case Read(marks) => !f.raised && Alternate(f.open, marks)
  }

  function Fed(f: Feed, step: Step): Feed
    requires f.popped <= |f.sent|
  {
    match step
    case Write(client) => f.(sent := f.sent + [client])
    case Read(marks) => Marked(f, Waiting(f), f.open, marks)
  }

  /** The number of messages that begin in a read. */
  function Beginnings(marks: seq<Mark>): nat {
    if marks == [] then 0 else (if marks[0].Begins? then 1 else 0) + Beginnings(marks[1..])
  }

  /** The parser raises exactly if more messages begin in a read than requests wait. */
  lemma {:induction false} RaisesExactly(f: Feed, left: seq<Exchange>, late: bool, marks: seq<Mark>)
    requires !f.raised
    ensures Marked(f, left, late, marks).raised <==> Beginnings(marks) > |left|
    decreases |marks|
  {
    if marks == [] {
    } else if marks[0].Ends? {
      RaisesExactly(End(f), left, late, marks[1..]);
    } else if left != [] {
      RaisesExactly(Begin(f, left[0], late), left[1..], late, marks[1..]);
    }
  }

  // ----- the parser as it is

  class ClientStateMachine {
    var requests: seq<Exchange>
    var request: Option<Exchange>

    constructor ()
      ensures requests == [] && request == None
    {
      requests, request := [], None;
    }

    /** `on_message_started` */
    method OnMessageStarted() returns (raised: bool)
      modifies this
      ensures raised == (old(requests) == [])
      ensures !raised ==> request == Some(old(requests)[0]) && requests == old(requests)[1..]
      ensures raised ==> request == old(request) && requests == old(requests)
    {
      if requests == [] {
        return true;
      }
      request, requests := Some(requests[0]), requests[1..];
      return false;
    }
  }

  class Connection {
    const parser: ClientStateMachine
    // state['requests']
    var waiting: seq<Exchange>
    ghost var feed: Feed

    ghost predicate Valid()
      reads this
    {
      feed.popped <= |feed.sent| && waiting == Waiting(feed)
    }

    constructor ()
      ensures Valid() && feed == UNFED && fresh(parser)
    {
      parser := new ClientStateMachine();
      waiting, feed := [], UNFED;
    }

    /** A request is written. */
    method OnRequest(client: Exchange)
      requires Valid()
      modifies this
      ensures Valid() && feed == Fed(old(feed), Write(client))
    {
      waiting := waiting + [client];
      feed := Fed(feed, Write(client));
    }

    /** The part of `_on_read` that concerns the requests: what the parser is told, and what the loop pops. */
    method OnRead(marks: seq<Mark>) returns (raised: bool)
      requires Valid() && Possible(feed, Read(marks))
      modifies this, parser
      ensures Valid() && feed == Fed(old(feed), Read(marks)) && raised == feed.raised
    {
      parser.requests := waiting;
      for i := 0 to |marks|
        invariant Valid() && !feed.raised
        invariant Marked(feed, parser.requests, old(feed).open, marks[i..]) == Fed(old(feed), Read(marks))
      {
        assert marks[i..][0] == marks[i] && marks[i..][1..] == marks[i + 1..];
        if marks[i].Ends? {
          if waiting != [] {
            waiting := waiting[1..];
          }
          feed := End(feed);
        } else {
          ghost var left := parser.requests;
          raised := parser.OnMessageStarted();
          if raised {
            feed := feed.(raised := true);
            return;
          }
          feed := Begin(feed, left[0], old(feed).open);
        }
      }
      assert marks[|marks|..] == [];
      return false;
    }
  }

  // ----- which request a message is parsed for

  function Lag(late: bool): nat {
    if late then 1 else 0
  }

  /** As long as no message was one too many, message `i` was given its request, or the one before if it was late. */
  ghost predicate FeedInv(f: Feed) {
    && f.popped <= |f.sent|
    && |f.late| == |f.given|
    && |f.given| == f.popped + f.surplus + Lag(f.open)
    && (f.surplus == 0 ==>
          forall i :: 0 <= i < |f.given| ==> 0 <= i - Lag(f.late[i]) < |f.sent| && f.given[i] == f.sent[i - Lag(f.late[i])])
  }

  /** During a read: what is left are the requests from the next message on, or from the one before. */
  ghost predicate During(f: Feed, left: seq<Exchange>, late: bool) {
    && FeedInv(f)
    && (f.surplus == 0 ==> 0 <= |f.given| - Lag(late) <= |f.sent| && left == f.sent[|f.given| - Lag(late)..])
  }

  lemma EndDuring(f: Feed, left: seq<Exchange>, late: bool)
    requires During(f, left, late) && f.open
    ensures During(End(f), left, late)
  {
  }

  lemma BeginDuring(f: Feed, left: seq<Exchange>, late: bool)
    requires During(f, left, late) && !f.open && left != []
    ensures During(Begin(f, left[0], late), left[1..], late)
  {
    var f' := Begin(f, left[0], late);
    if f.surplus == 0 {
      assert left[1..] == f'.sent[|f'.given| - Lag(late)..];
    }
  }

  lemma {:induction false} MarkedKeeps(f: Feed, left: seq<Exchange>, late: bool, marks: seq<Mark>)
    requires During(f, left, late) && Alternate(f.open, marks)
    ensures FeedInv(Marked(f, left, late, marks))
    decreases |marks|
  {
    if marks == [] {
    } else if marks[0].Ends? {
      EndDuring(f, left, late);
      MarkedKeeps(End(f), left, late, marks[1..]);
    } else if left != [] {
      BeginDuring(f, left, late);
      MarkedKeeps(Begin(f, left[0], late), left[1..], late, marks[1..]);
    }
  }

  lemma FedKeeps(f: Feed, step: Step)
    requires FeedInv(f) && Possible(f, step)
    ensures FeedInv(Fed(f, step))
  {
    if step.Read? {
      assert f.surplus == 0 ==> |f.given| - Lag(f.open) == f.popped;
      MarkedKeeps(f, Waiting(f), f.open, step.marks);
    }
  }

  /** The state after some steps; those that are not possible are skipped. */
  ghost function FedAll(f: Feed, steps: seq<Step>): Feed
    requires FeedInv(f)
    ensures FeedInv(FedAll(f, steps))
    decreases |steps|
  {
    if steps == [] then f
    else if Possible(f, steps[0]) then
      FedKeeps(f, steps[0]);
      FedAll(Fed(f, steps[0]), steps[1..])
    else FedAll(f, steps[1..])
  }

  /** Requests are written once. */
  lemma {:induction false} SentOnce(f: Feed, steps: seq<Step>)
    requires FeedInv(f) && Unique(f.sent)
    ensures Unique(FedAll(f, steps).sent)
    decreases |steps|
  {
    if steps == [] {
    } else if Possible(f, steps[0]) {
      FedKeeps(f, steps[0]);
      if steps[0].Read? {
        MarkedSends(f, Waiting(f), f.open, steps[0].marks);
      }
      SentOnce(Fed(f, steps[0]), steps[1..]);
    } else {
      SentOnce(f, steps[1..]);
    }
  }

  lemma {:induction false} MarkedSends(f: Feed, left: seq<Exchange>, late: bool, marks: seq<Mark>)
    ensures Marked(f, left, late, marks).sent == f.sent
    decreases |marks|
  {
    if marks == [] {
    } else if marks[0].Ends? {
      MarkedSends(End(f), left, late, marks[1..]);
    } else if left != [] {
      MarkedSends(Begin(f, left[0], late), left[1..], late, marks[1..]);
    }
  }

  /** A connection after some steps. */
  ghost function Reached(steps: seq<Step>): (f: Feed)
    ensures FeedInv(f) && Unique(f.sent)
  {
    StartOk(UNFED);
    ReachedOk(UNFED, steps);
    FedAll(UNFED, steps)
  }

  lemma ReachedOk(f: Feed, steps: seq<Step>)
    requires FeedInv(f) && Unique(f.sent)
    ensures FeedInv(FedAll(f, steps)) && Unique(FedAll(f, steps).sent)
  {
    SentOnce(f, steps);
  }

  lemma StartOk(f: Feed)
    requires f == UNFED
    ensures FeedInv(f) && Unique(f.sent)
  {
  }

  /** Message `i` was parsed for its own request exactly if it was not late, and otherwise for the one before. */
  predicate OwnUnlessLate(f: Feed, i: nat) {
    && i < |f.given| == |f.late|
    && ((i < |f.sent| && f.given[i] == f.sent[i]) <==> !f.late[i])
    && (f.late[i] ==> 0 < i <= |f.sent| && f.given[i] == f.sent[i - 1])
  }

  lemma GivenOwn(f: Feed, i: nat)
    requires FeedInv(f) && Unique(f.sent) && f.surplus == 0 && i < |f.given|
    ensures OwnUnlessLate(f, i)
  {
    assert 0 <= i - Lag(f.late[i]) < |f.sent| && f.given[i] == f.sent[i - Lag(f.late[i])];
  }

  /**
   In every run of writes and reads in which no message was one too many: the request that
   message `i` was parsed for is the `i`-th request if and only if the read in which it
   began found no other message open; otherwise it is the one before.
   */
  lemma OwnRequestExactly(steps: seq<Step>, i: nat)
    requires i < |Reached(steps).given| && Reached(steps).surplus == 0
    ensures OwnUnlessLate(Reached(steps), i)
  {
    GivenOwn(Reached(steps), i);
  }

  // ----- how many messages reach the loop

  /** The number of messages that end in a read, up to where the parser raises. */
  function Completed(left: seq<Exchange>, marks: seq<Mark>): nat
    decreases |marks|
  {
    if marks == [] then 0
    else if marks[0].Ends? then 1 + Completed(left, marks[1..])
    else if left == [] then 0
    else Completed(left[1..], marks[1..])
  }

  /**
   The loop of a read gets at most as many messages as requests wait, and one more only if
   the first of them began in an earlier read: another message too many finds the parser
   without a request, which raises.
   */
  lemma {:induction false} AtMostOneSurplus(open: bool, left: seq<Exchange>, marks: seq<Mark>)
    requires Alternate(open, marks)
    ensures Completed(left, marks) <= |left| + Lag(open)
    ensures Completed(left, marks) > |left| ==> open && marks != [] && marks[0] == Ends
    decreases |marks|
  {
    if marks == [] {
    } else if marks[0].Ends? {
      AtMostOneSurplus(false, left, marks[1..]);
    } else if left != [] {
      AtMostOneSurplus(true, left[1..], marks[1..]);
    }
  }

  /** The messages of a read and the surplus among them are those that `Pair` is given. */
  lemma {:induction false} SurplusCounts(f: Feed, left: seq<Exchange>, late: bool, marks: seq<Mark>)
    requires f.popped <= |f.sent| && !f.raised && Alternate(f.open, marks)
    ensures var f' := Marked(f, left, late, marks);
            var n := Completed(left, marks);
            && f'.popped + f'.surplus == f.popped + f.surplus + n
            && f'.surplus == f.surplus + if n <= |Waiting(f)| then 0 else n - |Waiting(f)|
    decreases |marks|
  {
    if marks == [] {
    } else if marks[0].Ends? {
      SurplusCounts(End(f), left, late, marks[1..]);
    } else if left != [] {
      SurplusCounts(Begin(f, left[0], late), left[1..], late, marks[1..]);
    }
  }

  /** In one read at most one message is one too many, and only if a message was open before. */
  lemma OneSurplusPerRead(f: Feed, marks: seq<Mark>)
    requires FeedInv(f) && Possible(f, Read(marks))
    ensures f.surplus <= Fed(f, Read(marks)).surplus <= f.surplus + Lag(f.open)
  {
    SurplusCounts(f, Waiting(f), f.open, marks);
    AtMostOneSurplus(f.open, Waiting(f), marks);
  }
}
