/**
 Vocabulary shared by the server, the client and the request lifecycle.
 */
module Messages {

  datatype Option<+T> = None | Some(value: T)

  /** A byte string; every character stands for one byte. */
  type Bytes = string

  /** A connected socket. Sockets are numbered in the order in which the server first reads from them. */
  type Socket = nat

  /**
   A response as it leaves `ComposedResponse.prepare`: the status line and headers in
   `head`, the chunks the body iterator has yet to yield in `body`, and whether the
   connection is to be closed once it has been sent.
   */
  datatype Response = Response(status: nat, head: Bytes, body: seq<Bytes>, close: bool)

  /** What `Response(status=500)` amounts to: no body. */
  const BARE_500: Response := Response(500, "HTTP/1.1 500 Internal Server Error\r\n\r\n", [], false)

  /** The blocks a response is written in: first the head, then each chunk of the body. */
  function Render(r: Response): seq<Bytes> {
    [r.head] + r.body
  }

  /** The bytes of a sequence of blocks. */
  function Flatten(blocks: seq<Bytes>): Bytes {
    if blocks == [] then [] else blocks[0] + Flatten(blocks[1..])
  }

  lemma {:induction false} FlattenAppend(a: seq<Bytes>, b: seq<Bytes>)
    ensures Flatten(a + b) == Flatten(a) + Flatten(b)
  {
    if a == [] {
      assert a + b == b;
    } else {
      FlattenAppend(a[1..], b);
      assert (a + b)[1..] == a[1..] + b;
      assert a[0] + (Flatten(a[1..]) + Flatten(b)) == (a[0] + Flatten(a[1..])) + Flatten(b);
    }
  }
}
