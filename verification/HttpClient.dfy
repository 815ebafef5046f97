/**
 The client component: its pool of connections with three indexes over it, and the
 first-in-first-out pairing of the messages read from a connection with the requests
 written to it.
 */
module HttpClient {
  import opened Messages

  /** The triple by which the pool looks for a connection. */
  datatype Target = Target(host: string, port: nat, secure: bool)

  /** A client object: a request waiting for its response. */
  type Exchange = nat

  // ----- pairing

  /** What reading some messages does to a queue of requests; `ok` is false where the source has an unbound name. */
  datatype Pairing = Pairing(pending: seq<Exchange>, response: map<Exchange, Response>, fired: seq<Exchange>, ok: bool)

  /** The loop of `_on_read`; `last` is the client of the previous round, which a surplus message is given to. */
  function Pair(p: Pairing, last: Option<Exchange>, messages: seq<Response>): Pairing
    decreases |messages|
  {
    if messages == [] then p
    else if p.pending == [] && last.None? then p.(ok := false)
    else
      var client := if p.pending == [] then last.value else p.pending[0];
      Pair(p.(pending := if p.pending == [] then [] else p.pending[1..],
              response := p.response[client := messages[0]],
              fired := p.fired + [client]),
           Some(client), messages[1..])
  }

  predicate Unique(q: seq<Exchange>) {
    forall i, j :: 0 <= i < j < |q| ==> q[i] != q[j]
  }

  /** One round of the loop while requests are waiting. */
  function Next(p: Pairing, message: Response): Pairing
    requires p.pending != []
  {
    p.(pending := p.pending[1..], response := p.response[p.pending[0] := message], fired := p.fired + [p.pending[0]])
  }

  /** With no more messages than requests, as many requests are taken and announced as there are messages. */
  lemma {:induction false} TakesInTurn(p: Pairing, last: Option<Exchange>, messages: seq<Response>)
    requires |messages| <= |p.pending|
    ensures var q := Pair(p, last, messages);
            q.ok == p.ok && q.pending == p.pending[|messages|..] && q.fired == p.fired + p.pending[..|messages|]
    decreases |messages|
  {
    if messages == [] {
    } else {
      var n := |messages|;
      var p' := Next(p, messages[0]);
      TakesInTurn(p', Some(p.pending[0]), messages[1..]);
      assert p'.pending[n - 1..] == p.pending[n..];
      assert p.pending[..n] == [p.pending[0]] + p'.pending[..n - 1];
    }
  }

  /** No other request is touched. */
  lemma {:induction false} PairsNoOther(p: Pairing, last: Option<Exchange>, messages: seq<Response>, x: Exchange)
    requires |messages| <= |p.pending| && x !in p.pending[..|messages|]
    ensures var q := Pair(p, last, messages);
            (x in q.response <==> x in p.response) && (x in p.response ==> q.response[x] == p.response[x])
    decreases |messages|
  {
    if messages == [] {
    } else {
      var n := |messages|;
      var p' := Next(p, messages[0]);
      assert p.pending[..n] == [p.pending[0]] + p'.pending[..n - 1];
      assert p.pending[0] in p.pending[..n];
      PairsNoOther(p', Some(p.pending[0]), messages[1..], x);
    }
  }

  /** Every message goes to the request in its turn. */
  lemma {:induction false} PairsInTurn(p: Pairing, last: Option<Exchange>, messages: seq<Response>, i: nat)
    requires |messages| <= |p.pending| && Unique(p.pending) && i < |messages|
    ensures var q := Pair(p, last, messages);
            p.pending[i] in q.response && q.response[p.pending[i]] == messages[i]
    decreases |messages|
  {
    var p' := Next(p, messages[0]);
    if i == 0 {
      PairsNoOther(p', Some(p.pending[0]), messages[1..], p.pending[0]);
    } else {
      PairsInTurn(p', Some(p.pending[0]), messages[1..], i - 1);
    }
  }

  /** Messages too many in the same read are given to the request that was answered last; without one the handler raises. */
  lemma {:induction false} SurplusGoesToTheLast(p: Pairing, last: Option<Exchange>, messages: seq<Response>)
    requires p.pending == [] && messages != []
    ensures Pair(p, last, messages) ==
              if last.None? then p.(ok := false)
              else Pairing([], p.response[last.value := messages[|messages| - 1]],
                           p.fired + seq(|messages|, _ => last.value), p.ok)
    decreases |messages|
  {
    if last.Some? {
      var p' := p.(response := p.response[last.value := messages[0]], fired := p.fired + [last.value]);
      assert Pair(p, last, messages) == Pair(p', last, messages[1..]);
      if |messages| == 1 {
        assert messages[1..] == [];
        assert seq(1, _ => last.value) == [last.value];
      } else {
        SurplusGoesToTheLast(p', last, messages[1..]);
        assert [last.value] + seq(|messages| - 1, _ => last.value) == seq(|messages|, _ => last.value);
        assert p.fired + [last.value] + seq(|messages| - 1, _ => last.value) == p.fired + seq(|messages|, _ => last.value);
        assert p'.response[last.value := messages[|messages| - 1]] == p.response[last.value := messages[|messages| - 1]];
      }
    }
  }

  /** So the last request ends up with the last message, and the others with theirs. */
  lemma {:induction false} LastMessageWins(p: Pairing, last: Option<Exchange>, messages: seq<Response>)
    requires p.pending != [] && Unique(p.pending) && |messages| > |p.pending|
    ensures var q := Pair(p, last, messages);
            var m := |p.pending| - 1;
            && q.ok == p.ok
            && (forall i :: 0 <= i < m ==> p.pending[i] in q.response && q.response[p.pending[i]] == messages[i])
            && p.pending[m] in q.response && q.response[p.pending[m]] == messages[|messages| - 1]
    decreases |messages|
  {
    var p' := Next(p, messages[0]);
    var client := p.pending[0];
    if p'.pending == [] {
      SurplusGoesToTheLast(p', Some(client), messages[1..]);
    } else {
      LastMessageWins(p', Some(client), messages[1..]);
      SurplusTouchesNoOther(p', Some(client), messages[1..], client);
      var q := Pair(p', Some(client), messages[1..]);
      forall i | 0 < i < |p.pending| - 1 ensures p.pending[i] in q.response && q.response[p.pending[i]] == messages[i] {
        assert p.pending[i] == p'.pending[i - 1] && messages[i] == messages[1..][i - 1];
      }
    }
  }

  /** However many messages there are, a request that does not wait keeps what it has while others do. */
  lemma {:induction false} SurplusTouchesNoOther(p: Pairing, last: Option<Exchange>, messages: seq<Response>, x: Exchange)
    requires p.pending != [] && x !in p.pending
    ensures var q := Pair(p, last, messages);
            (x in q.response <==> x in p.response) && (x in p.response ==> q.response[x] == p.response[x])
    decreases |messages|
  {
    if messages == [] {
    } else {
      var p' := Next(p, messages[0]);
      var client := p.pending[0];
      assert client in p.pending;
      if p'.pending != [] {
        SurplusTouchesNoOther(p', Some(client), messages[1..], x);
      } else if messages[1..] != [] {
        SurplusGoesToTheLast(p', Some(client), messages[1..]);
      }
    }
  }

  /**
   Reading some messages gives every waiting request the message of its turn exactly when
   there are no more messages than requests, or the last one repeats that turn.
   */
  lemma EveryRequestItsOwn(p: Pairing, messages: seq<Response>)
    requires p.pending != [] && Unique(p.pending)
    ensures var q := Pair(p, None, messages);
            (forall i :: 0 <= i < |p.pending| && i < |messages| ==>
               p.pending[i] in q.response && q.response[p.pending[i]] == messages[i])
            <==> |messages| <= |p.pending| || messages[|messages| - 1] == messages[|p.pending| - 1]
  {
    if |messages| <= |p.pending| {
      forall i | 0 <= i < |messages|
        ensures p.pending[i] in Pair(p, None, messages).response && Pair(p, None, messages).response[p.pending[i]] == messages[i]
      {
        PairsInTurn(p, None, messages, i);
      }
    } else {
      LastMessageWins(p, None, messages);
    }
  }

  // ----- names of connections

  function Digit(d: nat): string
    requires d < 10
  {
    [['0', '1', '2', '3', '4', '5', '6', '7', '8', '9'][d]]
  }

  /** `'%d' % n` */
  function Decimal(n: nat): string {
    if n < 10 then Digit(n) else Decimal(n / 10) + Digit(n % 10)
  }

  /** The number that some digits stand for. */
  function Value(s: string): int {
    if s == "" then 0 else 10 * Value(s[..|s| - 1]) + (s[|s| - 1] as int - '0' as int)
  }

  /** A decimal is made of digits, stands for its number, and begins with a zero for zero alone. */
  lemma {:induction false} DecimalReadsBack(n: nat)
    ensures Value(Decimal(n)) == n
    ensures forall i :: 0 <= i < |Decimal(n)| ==> '0' <= Decimal(n)[i] <= '9'
    ensures Decimal(n) != "" && (Decimal(n)[0] == '0' <==> n == 0)
  {
    var s := Decimal(n);
    if n < 10 {
      assert s[..|s| - 1] == "";
    } else {
      DecimalReadsBack(n / 10);
      assert s[..|s| - 1] == Decimal(n / 10);
    }
  }

  /** `'%s_%d' % (channel, n)` */
  function ChannelName(channel: string, n: nat): string {
    channel + "_" + Decimal(n)
  }

  lemma ChannelNameIsInjective(channel: string, m: nat, n: nat)
    requires ChannelName(channel, m) == ChannelName(channel, n)
    ensures m == n
  {
    assert ChannelName(channel, m)[|channel| + 1..] == Decimal(m);
    assert ChannelName(channel, n)[|channel| + 1..] == Decimal(n);
    DecimalReadsBack(m);
    DecimalReadsBack(n);
  }

  // ----- the pool

  /** The write events for some blocks. */
  function Writes(socket: nat, blocks: seq<Bytes>): seq<(nat, Bytes)> {
    seq(|blocks|, i requires 0 <= i < |blocks| => (socket, blocks[i]))
  }

  /** Whether `k` is the connection that the first known channel of a list belongs to. */
  predicate FirstKnown(channelSock: map<string, nat>, channels: seq<string>, k: nat) {
    exists i :: 0 <= i < |channels| && channels[i] in channelSock && channelSock[channels[i]] == k
                && forall j :: 0 <= j < i ==> channels[j] !in channelSock
  }

  /** Sockets are numbered, every one has a queue, and it is found under its own channel and under no other. */
  ghost predicate Agree(channel: string, sockets: seq<string>, buffers: map<nat, seq<Exchange>>, channelSock: map<string, nat>) {
    && |buffers| == |sockets|
    && (forall k :: k in buffers <==> 0 <= k < |sockets|)
    && (forall k :: 0 <= k < |sockets| ==> sockets[k] == ChannelName(channel, k))
    && (forall k :: 0 <= k < |sockets| ==> sockets[k] in channelSock && channelSock[sockets[k]] == k)
    && (forall name :: name in channelSock ==> channelSock[name] in buffers && sockets[channelSock[name]] == name)
  }

  /** A name made from the number of queues is new, and a socket added under it is found there. */
  lemma AgreeAdds(channel: string, sockets: seq<string>, buffers: map<nat, seq<Exchange>>, channelSock: map<string, nat>)
    requires Agree(channel, sockets, buffers, channelSock)
    ensures var k := |sockets|;
            var name := ChannelName(channel, |buffers|);
            && k !in buffers && name !in channelSock
            && Agree(channel, sockets + [name], buffers[k := []], channelSock[name := k])
  {
    var k := |sockets|;
    var name := ChannelName(channel, |buffers|);
    if name in channelSock {
      ChannelNameIsInjective(channel, |buffers|, channelSock[name]);
    }
    assert |buffers[k := []]| == |buffers| + 1;
    var more, found := sockets + [name], channelSock[name := k];
    forall j | 0 <= j < |more|
      ensures more[j] == ChannelName(channel, j) && more[j] in found && found[more[j]] == j
    {
      assert j < k ==> more[j] == sockets[j] && sockets[j] in channelSock;
    }
    forall other | other in found ensures found[other] in buffers[k := []] && more[found[other]] == other {
      assert other != name ==> more[channelSock[other]] == sockets[channelSock[other]];
    }
  }

  class HTTPClient {
    const channel: string
    // the channels of all sockets that were made; a socket is known by its place in this list
    var sockets: seq<string>
    // the requests of every connection that wait for their responses
    var buffers: map<nat, seq<Exchange>>
    var socketMap: map<Target, nat>
    var channelSock: map<string, nat>
    // client.response of the exchanges, and the response events that were fired
    var response: map<Exchange, Response>
    var fired: seq<Exchange>
    // the write events that were fired, each with its socket
    var written: seq<(nat, Bytes)>

    /** The indexes agree: every connection is found under its own channel and under no other. */
    ghost predicate Valid()
      reads this
    {
      Agree(channel, sockets, buffers, channelSock) && forall t :: t in socketMap ==> socketMap[t] in buffers
    }

    constructor (channel: string)
      ensures Valid() && this.channel == channel && buffers == map[]
    {
      this.channel := channel;
      sockets, buffers, socketMap, channelSock := [], map[], map[], map[];
      response, fired, written := map[], [], [];
    }

    /** `_on_connect`: the pooled connection if it is up, and otherwise a new one in its place, for which a connect event is fired. */
    method OnConnect(target: Target, connected: set<nat>) returns (socket: nat, connecting: bool)
      requires Valid()
      modifies this
      ensures Valid() && socket in buffers && target in socketMap && socketMap[target] == socket
      ensures response == old(response) && fired == old(fired) && written == old(written)
      ensures connecting <==> !(target in old(socketMap) && old(socketMap[target]) in connected)
      ensures target in old(socketMap) && old(socketMap[target]) in connected ==>
                socket == old(socketMap[target]) && buffers == old(buffers) && sockets == old(sockets)
                && socketMap == old(socketMap) && channelSock == old(channelSock)
      ensures !(target in old(socketMap) && old(socketMap[target]) in connected) ==>
                && socket !in old(buffers) && buffers == old(buffers)[socket := []]
                && sockets == old(sockets) + [channel + "_" + Decimal(socket)]
                && ChannelName(channel, socket) !in old(channelSock)
                && channelSock == old(channelSock)[ChannelName(channel, socket) := socket]
                && socketMap == old(socketMap)[target := socket]
    {
      if target in socketMap && socketMap[target] in connected {
        return socketMap[target], false;
      }
      var name := ChannelName(channel, |buffers|);
      socket, connecting := |sockets|, true;
      AgreeAdds(channel, sockets, buffers, channelSock);
      sockets := sockets + [name];
      buffers := buffers[socket := []];
      socketMap := socketMap[target := socket];
      channelSock := channelSock[name := socket];
    }

    /**
     The end of `_on_request`, when the coroutine goes on with the socket it was given.
     Nothing is ever taken out of the pool, so that a socket that came from `OnConnect` is
     still there however long the coroutine was suspended; any other socket is ignored.
     `blocks` is what the composed request yields.
     */
    method OnRequest(client: Exchange, socket: nat, blocks: seq<Bytes>) returns (sent: bool)
      requires Valid()
      modifies this`buffers, this`written
      ensures Valid() && sent == (socket in old(buffers))
      ensures buffers == if sent then old(buffers)[socket := old(buffers)[socket] + [client]] else old(buffers)
      ensures written == old(written) + if sent then Writes(socket, blocks) else []
    {
      if socket !in buffers {
        return false;
      }
      buffers := buffers[socket := buffers[socket] + [client]];
      assert buffers.Keys == old(buffers).Keys;
      for i := 0 to |blocks|
        invariant Valid() && buffers == old(buffers)[socket := old(buffers)[socket] + [client]]
        invariant written == old(written) + Writes(socket, blocks[..i])
      {
        written := written + [(socket, blocks[i])];
        assert Writes(socket, blocks[..i + 1]) == Writes(socket, blocks[..i]) + [(socket, blocks[i])];
      }
      assert blocks[..|blocks|] == blocks;
      return true;
    }

    /** The first of the channels that belongs to this component. */
    method SocketOf(channels: seq<string>) returns (socket: Option<nat>)
      requires Valid()
      ensures socket.None? <==> forall i :: 0 <= i < |channels| ==> channels[i] !in channelSock
      ensures socket.Some? ==> FirstKnown(channelSock, channels, socket.value)
    {
      for i := 0 to |channels|
        invariant forall j :: 0 <= j < i ==> channels[j] !in channelSock
      {
        if channels[i] in channelSock {
          return Some(channelSock[channels[i]]);
        }
      }
      return None;
    }

    /** `_on_read` for a read event on some channels; `messages` are the responses the parser completes. */
    method OnRead(channels: seq<string>, messages: seq<Response>) returns (ok: bool)
      requires Valid()
      modifies this`buffers, this`response, this`fired
      ensures Valid()
      ensures (forall i :: 0 <= i < |channels| ==> channels[i] !in channelSock) ==>
                ok && buffers == old(buffers) && response == old(response) && fired == old(fired)
      // a read concerns the queue of the connection of the first known channel alone
      ensures forall k :: k in buffers && FirstKnown(channelSock, channels, k) ==>
                var p := Pair(Pairing(old(buffers)[k], old(response), old(fired), true), None, messages);
                && buffers == old(buffers)[k := p.pending]
                && response == p.response && fired == p.fired && ok == p.ok
    {
      var socket := SocketOf(channels);
      if socket.None? {
        return true;
      }
      var k := socket.value;
      assert forall k' :: FirstKnown(channelSock, channels, k') ==> k' == k;
      var pending := buffers[k];
      var client: Option<Exchange> := None;
      ghost var start := Pairing(pending, response, fired, true);
      ghost var whole := Pair(start, None, messages);
      for i := 0 to |messages|
        invariant Valid() && buffers == old(buffers)
        invariant Pair(Pairing(pending, response, fired, true), client, messages[i..]) == whole
      {
        if pending != [] {
          client := Some(pending[0]);
          pending := pending[1..];
        } else if client.None? {
          buffers := buffers[k := pending];
          return false;
        }
        response := response[client.value := messages[i]];
        fired := fired + [client.value];
        assert messages[i..][1..] == messages[i+1..];
      }
      assert messages[|messages|..] == [];
      buffers := buffers[k := pending];
      return true;
    }
  }
}
