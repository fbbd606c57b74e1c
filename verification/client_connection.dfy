/**
 * The client's `Connection`: the socket's open state, the queue of commands
 * waiting to be sent, and the coroutine that runs them one at a time over
 * the connection's one `iostream`.
 *
 * Each operation is one atomic step; the interleavings of the application
 * thread with the coroutine are not modelled. The socket layer's answer to
 * a connect, and the characters the server sends back on the connection,
 * are parameters. The stream's state is one bit shared by reads and
 * writes, as in an `iostream`: once a read or a flush has failed, every
 * later write writes nothing and every later read fails.
 */
module ClientConnection {
  import opened Wrappers
  import opened Errors
  import opened Streams
  import opened ClientCommands

  /** What running one command gave: whether its request went out, its result, its data. */
  datatype Outcome = Outcome(command: Command, wrote: bool, result: ResultRead, data: DataRead)

  /**
   * `open` is the socket's `is_open()`; `processing` is `m_ProcessCommands`;
   * `crashed` says an exception thrown in the coroutine has ended the
   * process: nothing catches it on its way out of `io_service::run` on the
   * detached worker thread, so `std::terminate` is called. `sent` is every
   * character written to the server, and `outcomes` is the model's record
   * of every command run, in order; the program keeps no such record.
   */
  datatype Client = Client(open: bool, processing: bool, crashed: bool, queue: seq<Command>,
                           stream: Stream, sent: seq<char>, outcomes: seq<Outcome>)

  /** The coroutine runs only over an open socket, and only a running one can crash. */
  predicate Valid(s: Client)
  {
    (s.processing ==> s.open) && (s.crashed ==> s.processing)
  }

  /** A new `Connection`: closed, idle, with a good stream. */
  const Initial: Client := Client(false, false, false, [], Stream(true, []), [], [])

  /**
   * What the socket layer does with a connect: the error it reports,
   * whether the socket is open afterwards when it fails, and the characters
   * the server will send on the connection when it succeeds.
   */
  datatype Attempt = Attempt(error: ErrorCode, leftOpen: bool, incoming: seq<char>)

  // ----- connect, disconnect, send ---------------------------------------

  /**
   * `connect`: `already_connected` on an open socket; the socket's error
   * when the connect fails, without starting the coroutine; otherwise the
   * queue is cleared and the coroutine started. The stream's state is kept
   * as it was.
   */
  function Connect(s: Client, attempt: Attempt): (r: (ErrorCode, Client))
    requires Valid(s)
    ensures Valid(r.1)
    ensures s.open ==> r == (AlreadyConnected, s)
    ensures !s.open && Failed(attempt.error) ==> r.0 == attempt.error && !r.1.processing && r.1.queue == s.queue
    ensures !s.open && !Failed(attempt.error) ==>
              && r.0 == NoError && r.1.open && r.1.processing && !r.1.crashed && r.1.queue == []
              && r.1.stream == Stream(s.stream.good, attempt.incoming)
    ensures r.1.sent == s.sent && r.1.outcomes == s.outcomes
  {
    if s.open then (AlreadyConnected, s)
    else if Failed(attempt.error) then (attempt.error, s.(open := attempt.leftOpen))
    else (NoError, s.(open := true, processing := true, crashed := false, queue := [],
                      stream := Stream(s.stream.good, attempt.incoming)))
  }

  /**
   * `asyncSendCommand`: `not_connected` on a closed socket; otherwise the
   * command joins the back of the queue and nothing else changes.
   */
  function AsyncSend(s: Client, c: Command): (r: (ErrorCode, Client))
    ensures !s.open ==> r == (NotConnected, s)
    ensures s.open ==> r == (NoError, s.(queue := s.queue + [c]))
  {
    if !s.open then (NotConnected, s) else (NoError, s.(queue := s.queue + [c]))
  }

  /**
   * `disconnect`: nothing on a closed socket. Otherwise the socket is
   * closed and processing stopped; a running coroutine then drains the
   * queue before it ends, and `disconnect` waits for it. Once an
   * exception has ended the process there is no later state, and no call
   * returns: that is `None`.
   */
  function Disconnect(s: Client, decode: Decoder): (r: Option<Client>)
    requires Valid(s)
    ensures r.Some? ==> Valid(r.value) && !r.value.open && !r.value.processing
    ensures r.None? <==> s.open && s.crashed
    ensures !s.open ==> r == Some(s)
    ensures s.open && s.processing && r.Some? ==> r.value.queue == []
    ensures s.open && !s.processing ==> r == Some(s.(open := false))
  {
    if !s.open then Some(s)
    else if s.crashed then None
    else if s.processing then
      DrainOnBadStream(s.(open := false, processing := false), decode);
      Some(Drain(s.(open := false, processing := false), decode))
    else Some(s.(open := false))
  }

  // ----- the coroutine ----------------------------------------------------

  /**
   * One pass of the drain loop on the command at the front: write its
   * request, read its result, read its data, and pop it. The flush fails,
   * and spoils the stream, once processing has been stopped. A `resize`
   * that throws ends the process with the command still at the front.
   */
  function Step(s: Client, decode: Decoder): (r: Client)
    requires |s.queue| > 0 && !s.crashed
    ensures r.open == s.open && r.processing == s.processing
    ensures |r.outcomes| == |s.outcomes| + 1 && r.outcomes[..|s.outcomes|] == s.outcomes && r.outcomes[|s.outcomes|].command == s.queue[0]
    ensures r.crashed ==> r.queue == s.queue
    ensures !r.crashed ==> r.queue == s.queue[1..]
    ensures r.outcomes[|s.outcomes|].wrote <==> s.stream.good && s.processing
    ensures r.sent == s.sent + (if r.outcomes[|s.outcomes|].wrote then WriteRequest(s.queue[0]) else [])
    ensures !s.stream.good || !s.processing ==> !r.stream.good && !r.crashed
  {
    var c := s.queue[0];
    var wrote := s.stream.good && s.processing;
    var afterWrite := if wrote then s.stream else Stream(false, s.stream.chars);
    var result := ReadResponseResult(afterWrite);
    var data := ReadResponseData(c, result.rest, decode);
    ReadersOnBadStream(c, afterWrite.chars, decode);
    var o := Outcome(c, wrote, result, data);
    var sent := if wrote then s.sent + WriteRequest(c) else s.sent;
    if data.ResizeThrows? then s.(crashed := true, stream := data.rest, sent := sent, outcomes := s.outcomes + [o])
    else s.(queue := s.queue[1..], stream := data.rest, sent := sent, outcomes := s.outcomes + [o])
  }

  /** The drain loop: run the front command until the queue is empty or the coroutine has crashed. */
  function Drain(s: Client, decode: Decoder): (r: Client)
    ensures r.open == s.open && r.processing == s.processing
    ensures s.crashed ==> r == s
    ensures r.crashed || r.queue == []
    ensures |r.outcomes| >= |s.outcomes| && r.outcomes[..|s.outcomes|] == s.outcomes
    decreases |s.queue|, !s.crashed
  {
    if s.crashed || |s.queue| == 0 then s else Drain(Step(s, decode), decode)
  }

  /**
   * The coroutine woken by the signal: it drains the queue when it is
   * running; a coroutine that was never started, or has ended, does nothing.
   */
  function Wake(s: Client, decode: Decoder): Client
  {
    if s.processing && !s.crashed then Drain(s, decode) else s
  }

  /** The coroutine's loop, run step by step: it does what `Wake` says. */
  method RunQueue(s: Client, decode: Decoder) returns (r: Client)
    ensures r == Wake(s, decode)
    ensures s.processing && !s.crashed ==> r.crashed || r.queue == []
  {
    r := s;
    if !s.processing || s.crashed {
      return;
    }
    while |r.queue| > 0 && !r.crashed
      invariant Drain(r, decode) == Drain(s, decode)
      decreases |r.queue|, !r.crashed
    {
      r := Step(r, decode);
    }
  }

  // ----- what draining does -----------------------------------------------

  /** The requests written for some outcomes, in order. */
  function Written(outcomes: seq<Outcome>): seq<char>
  {
    if |outcomes| == 0 then []
    else (if outcomes[0].wrote then WriteRequest(outcomes[0].command) else []) + Written(outcomes[1..])
  }

  /** The commands a drain runs: the first step's, then the rest of the drain's. */
  lemma RanSplit(s: Client, decode: Decoder)
    requires !s.crashed && |s.queue| > 0 && !Step(s, decode).crashed
    ensures var t := Step(s, decode);
            Drain(s, decode).outcomes[|s.outcomes|..] == [t.outcomes[|s.outcomes|]] + Drain(t, decode).outcomes[|t.outcomes|..]
  {
    var t := Step(s, decode);
    assert Drain(s, decode) == Drain(t, decode);
    SuffixSplit(Drain(t, decode).outcomes, |s.outcomes|, t.outcomes);
  }

  /** A sequence that extends `y`, from position `n` of `y`'s last element on. */
  lemma SuffixSplit<T>(x: seq<T>, n: nat, y: seq<T>)
    requires |y| == n + 1 && |y| <= |x| && x[..|y|] == y
    ensures x[n..] == [y[n]] + x[|y|..]
  {
    assert x[n] == x[..|y|][n];
  }

  /** FIFO: a drain runs the commands of the queue from the front, in order, one outcome each. */
  lemma {:induction false} DrainRunsInOrder(s: Client, decode: Decoder)
    requires !s.crashed
    ensures var ran := Drain(s, decode).outcomes[|s.outcomes|..];
            && |ran| <= |s.queue|
            && forall i :: 0 <= i < |ran| ==> ran[i].command == s.queue[i]
    decreases |s.queue|
  {
    if |s.queue| > 0 {
      var t := Step(s, decode);
      if t.crashed {
        assert Drain(s, decode).outcomes[|s.outcomes|..] == [t.outcomes[|s.outcomes|]];
      } else {
        DrainRunsInOrder(t, decode);
        RanSplit(s, decode);
      }
    }
  }

  /**
   * Without a crash a drain runs every command and empties the queue;
   * after a crash the command that threw is still at the front.
   */
  lemma {:induction false} DrainEnds(s: Client, decode: Decoder)
    requires !s.crashed
    ensures var r := Drain(s, decode);
            var ran := r.outcomes[|s.outcomes|..];
            && (!r.crashed ==> |ran| == |s.queue| && r.queue == [])
            && (r.crashed ==> 0 < |ran| <= |s.queue| && r.queue == s.queue[|ran| - 1..])
    decreases |s.queue|
  {
    if |s.queue| > 0 {
      var t := Step(s, decode);
      if t.crashed {
        assert Drain(s, decode).outcomes[|s.outcomes|..] == [t.outcomes[|s.outcomes|]];
      } else {
        DrainEnds(t, decode);
        RanSplit(s, decode);
        var r := Drain(t, decode);
        var ranT := r.outcomes[|t.outcomes|..];
        if r.crashed {
          assert t.queue[|ranT| - 1..] == s.queue[|ranT|..];
        }
      }
    }
  }

  /** Only the requests that went out are added to what was sent, in the order they were run. */
  lemma {:induction false} DrainSends(s: Client, decode: Decoder)
    requires !s.crashed
    ensures |Drain(s, decode).outcomes| >= |s.outcomes| && Drain(s, decode).sent == s.sent + Written(Drain(s, decode).outcomes[|s.outcomes|..])
    decreases |s.queue|
  {
    if |s.queue| > 0 {
      var t := Step(s, decode);
      var o := t.outcomes[|s.outcomes|];
      if t.crashed {
        assert Drain(s, decode).outcomes[|s.outcomes|..] == [o];
        assert Written([o]) == (if o.wrote then WriteRequest(o.command) else []) + Written([]);
      } else {
        DrainSends(t, decode);
        RanSplit(s, decode);
        var ran := Drain(s, decode).outcomes[|s.outcomes|..];
        assert ran[1..] == Drain(t, decode).outcomes[|t.outcomes|..];
      }
    } else {
      assert s.outcomes[|s.outcomes|..] == [];
    }
  }

  /**
   * On a spoiled stream, or once processing has been stopped, a drain
   * sends nothing and every command fails with `illegal_byte_sequence`,
   * for its result and for its data; none of them can crash it.
   */
  lemma {:induction false} DrainOnBadStream(s: Client, decode: Decoder)
    requires !s.crashed && (!s.stream.good || !s.processing)
    ensures var r := Drain(s, decode);
            && !r.crashed && r.queue == [] && r.sent == s.sent
            && (|s.queue| > 0 || !s.stream.good ==> !r.stream.good)
            && |r.outcomes| == |s.outcomes| + |s.queue|
            && forall i :: |s.outcomes| <= i < |r.outcomes| ==>
                 !r.outcomes[i].wrote && r.outcomes[i].result.error == IllegalByteSequence
                 && r.outcomes[i].data.DataRead? && r.outcomes[i].data.error == IllegalByteSequence
    decreases |s.queue|
  {
    if |s.queue| > 0 {
      var t := Step(s, decode);
      var c := s.queue[0];
      var afterWrite := Stream(false, s.stream.chars);
      ReadersOnBadStream(c, afterWrite.chars, decode);
      assert t.outcomes[|s.outcomes|] == Outcome(c, false, ReadResponseResult(afterWrite), ReadResponseData(c, afterWrite, decode));
      DrainOnBadStream(t, decode);
      var r := Drain(t, decode);
      assert r.outcomes[..|t.outcomes|] == t.outcomes by {
        DrainRunsInOrder(t, decode);
      }
      assert r.outcomes[|s.outcomes|] == t.outcomes[|s.outcomes|];
    }
  }

  // ----- the socket the failed connect leaves open ------------------------

  /**
   * A connect that fails but leaves the socket open strands the client:
   * commands are accepted and queued, but no coroutine runs them, and
   * further connects are refused as `already_connected`.
   */
  lemma LeftOpenStrands(s: Client, attempt: Attempt, c: Command, decode: Decoder, retry: Attempt)
    requires Valid(s) && !s.open && Failed(attempt.error) && attempt.leftOpen
    ensures var t := Connect(s, attempt).1;
            var (sendError, u) := AsyncSend(t, c);
            && sendError == NoError && u.queue == s.queue + [c]
            && Wake(u, decode) == u
            && Connect(u, retry) == (AlreadyConnected, u)
  {
  }

  // ----- reconnecting -----------------------------------------------------

  /**
   * As written, `connect` keeps the stream's state: after a disconnect
   * that drained a waiting command, the reconnected client writes nothing
   * and every command fails with `illegal_byte_sequence`, whatever the
   * server sends.
   */
  lemma StaleStreamAfterReconnect(s: Client, attempt: Attempt, c: Command, decode: Decoder)
    requires Valid(s) && s.open && s.processing && !s.crashed && |s.queue| > 0
    requires !Failed(attempt.error)
    ensures var d := Disconnect(s, decode).value;
            var (connectError, t) := Connect(d, attempt);
            var (sendError, u) := AsyncSend(t, c);
            var w := Wake(u, decode);
            && connectError == NoError && sendError == NoError
            && w.sent == d.sent && |w.outcomes| == |d.outcomes| + 1
            && !w.outcomes[|d.outcomes|].wrote && w.outcomes[|d.outcomes|].result.error == IllegalByteSequence
  {
    var d0 := s.(open := false, processing := false);
    DrainOnBadStream(d0, decode);
    var d := Disconnect(s, decode).value;
    assert !d.stream.good;
    var t := Connect(d, attempt).1;
    var u := AsyncSend(t, c).1;
    assert u.queue == [c];
    DrainOnBadStream(u, decode);
  }

  /**
   * `connect` as evidently intended: a new connection starts with a good
   * stream, as it starts with empty buffers, and a connect that fails
   * leaves the socket closed.
   */
  function Reconnect(s: Client, attempt: Attempt): (r: (ErrorCode, Client))
    requires Valid(s)
    ensures Valid(r.1)
    ensures s.open ==> r == (AlreadyConnected, s)
    ensures !s.open && Failed(attempt.error) ==>
              r.0 == attempt.error && !r.1.open && !r.1.processing && r.1.queue == s.queue
    ensures !s.open && !Failed(attempt.error) ==>
              && r.0 == NoError && r.1.open && r.1.processing && !r.1.crashed && r.1.queue == []
              && r.1.stream == Stream(true, attempt.incoming)
    ensures r.1.sent == s.sent && r.1.outcomes == s.outcomes
  {
    var (e, t) := Connect(s, attempt);
    if s.open then (e, t)
    else if Failed(attempt.error) then (e, t.(open := false))
    else (e, t.(stream := Stream(true, attempt.incoming)))
  }

  /**
   * With the socket closed after a failed connect, the client is not
   * stranded: commands are refused as `not_connected` instead of queued,
   * and the next connect that succeeds starts the coroutine.
   */
  lemma ReconnectRetries(s: Client, attempt: Attempt, c: Command, retry: Attempt)
    requires Valid(s) && !s.open && Failed(attempt.error) && !Failed(retry.error)
    ensures var t := Reconnect(s, attempt).1;
            && AsyncSend(t, c) == (NotConnected, t)
            && var (retryError, u) := Reconnect(t, retry);
               retryError == NoError && u.open && u.processing && u.queue == [] && u.stream.good
  {
  }

  /**
   * With the stream cleared on connect, the first command sent on a new
   * connection goes out, whatever happened on the connection before.
   */
  lemma ReconnectSends(s: Client, attempt: Attempt, c: Command, decode: Decoder)
    requires Valid(s) && !s.open && !Failed(attempt.error)
    ensures var t := Reconnect(s, attempt).1;
            var (sendError, u) := AsyncSend(t, c);
            var w := Wake(u, decode);
            && sendError == NoError
            && |w.outcomes| == |s.outcomes| + 1 && w.outcomes[|s.outcomes|].command == c && w.outcomes[|s.outcomes|].wrote
            && w.sent == s.sent + WriteRequest(c)
  {
    var t := Reconnect(s, attempt).1;
    var u := AsyncSend(t, c).1;
    assert u.queue == [c] && u.stream.good && u.processing && !u.crashed && u.outcomes == s.outcomes && u.sent == s.sent;
    var first := Step(u, decode);
    assert Drain(first, decode) == first;
  }
}
