/** What inspection does to a request body: it reads a bounded prefix and rebuilds the body for
    the backend. */
module Body {
  import opened Prelude
  import opened ContentCache

  const MAX_INSPECT_BODY: nat := 1024 * 1024

  /** What a reader has left to deliver, and whether it then fails instead of ending. */
  datatype Stream = Stream(data: Bytes, fails: bool)

  /** The client's body. A read delivers some of what is left, in chunks of any size. */
  class Source {
    var left: Bytes
    const fails: bool

    constructor (data: Bytes, fails: bool)
      ensures Rest() == Stream(data, fails)
    {
      left, this.fails := data, fails;
    }

    function Rest(): Stream
      reads this
    {
      Stream(left, fails)
    }

    method Read(max: nat) returns (chunk: Bytes, err: ReadError)
      requires 0 < max
      modifies this
      ensures old(left) == chunk + left && |chunk| <= max
      ensures if old(left) == [] then chunk == [] && err == (if fails then Failed else Eof)
              else chunk != [] && err == NoError
    {
      if left == [] {
        return [], if fails then Failed else Eof;
      }
      var n :| 0 < n <= max && n <= |left|;
      chunk, err, left := left[..n], NoError, left[n..];
    }
  }

  /** The body handed to the backend: a buffer, or the prefix chained before the live source. */
  datatype Rebuilt = Buffered(buf: Bytes) | Chained(prefix: Bytes, rest: Source) {
    function Delivers(): Stream
      reads if Chained? then {rest} else {}
    {
      match this
      case Buffered(buf) => Stream(buf, false)
      case Chained(prefix, rest) => Stream(prefix + rest.left, rest.fails)
    }
  }

  /** ReadAll through a limit: the error that stopped it is dropped. */
  method ReadPrefix(src: Source, max: nat) returns (prefix: Bytes)
    modifies src
    ensures old(src.left) == prefix + src.left && |prefix| == Min(|old(src.left)|, max)
  {
    prefix := [];
    ghost var all := src.left;
    while |prefix| < max
      invariant |prefix| <= max && all == prefix + src.left
      decreases max - |prefix|
    {
      var chunk, err := src.Read(max - |prefix|);
      prefix := prefix + chunk;
      if err != NoError {
        break;
      }
    }
  }

  /** The inspected prefix is what the limit allows. A shorter body is replaced by what could be
      read of it, as if complete; a longer one is kept. So the backend gets the client's body,
      and its failure, exactly unless the body fails inside the prefix. */
  method BuildView(src: Source) returns (inspected: Bytes, body: Rebuilt)
    modifies src
    ensures inspected <= old(src.left) && |inspected| == Min(|old(src.left)|, 1_048_576)
    ensures body.Delivers() == if |old(src.left)| < 1_048_576 then Stream(old(src.left), false) else old(src.Rest())
    ensures body.Delivers() == old(src.Rest()) <==> !(src.fails && |old(src.left)| < 1_048_576)
    ensures body.Chained? ==> body.rest == src
  {
    inspected := ReadPrefix(src, MAX_INSPECT_BODY);
    if |inspected| < MAX_INSPECT_BODY {
      body := Buffered(inspected);
    } else {
      body := Chained(inspected, src);
    }
  }
}
