/**
  The response loop of `sendCalculation`: while a wait of at most
  `ReadTimeoutMs` reports data, everything available is appended to the
  response buffer, and reading stops as soon as the buffer ends with a line
  feed.

  What the device sends is given as the sequence of chunks the successive
  reads would return; the end of the sequence stands for the first wait that
  times out.
*/
module Exchange {

  /** The wait of each read, in milliseconds (no time is modelled). */
  const ReadTimeoutMs := 1000

  /** The buffer's only stop test: is its last character a line feed? */
  predicate EndsWithNewline(b: string) {
    |b| > 0 && b[|b| - 1] == '\n'
  }

  /** The buffer after the given chunks have been appended in order. */
  function Concat(chunks: seq<string>): string {
    if chunks == [] then [] else Concat(chunks[..|chunks| - 1]) + chunks[|chunks| - 1]
  }

  /**
    Reading stops after `n` chunks: either no chunk is left (the next wait
    times out) or the buffer ends with a line feed, and it did not after any
    earlier chunk.
  */
  predicate StopsAt(chunks: seq<string>, n: nat) {
    && n <= |chunks|
    && (n == |chunks| || EndsWithNewline(Concat(chunks[..n])))
    && forall k :: 0 < k < n ==> !EndsWithNewline(Concat(chunks[..k]))
  }

  /** Appending one more chunk appends it to the buffer. */
  lemma ConcatStep(chunks: seq<string>, n: nat)
    requires n < |chunks|
    ensures Concat(chunks[..n + 1]) == Concat(chunks[..n]) + chunks[n]
  {
    assert chunks[..n + 1][..n] == chunks[..n];
  }

  /** How many chunks are read when `i` have been read without stopping. */
  function StopFrom(chunks: seq<string>, i: nat): (n: nat)
    requires i <= |chunks|
    requires forall k :: 0 < k <= i ==> !EndsWithNewline(Concat(chunks[..k]))
    ensures i <= n && StopsAt(chunks, n)
    decreases |chunks| - i
  {
    if i == |chunks| then i
    else if EndsWithNewline(Concat(chunks[..i + 1])) then i + 1
    else StopFrom(chunks, i + 1)
  }

  /** The number of chunks one exchange consumes. */
  function Consumed(chunks: seq<string>): (n: nat)
    ensures StopsAt(chunks, n)
  {
    StopFrom(chunks, 0)
  }

  /** The response one exchange collects. */
  function Reply(chunks: seq<string>): string {
    Concat(chunks[..Consumed(chunks)])
  }

  /** The stop point is unique, so `Consumed` is the only count `StopsAt` admits. */
  lemma StopsAtUnique(chunks: seq<string>, n: nat, m: nat)
    requires StopsAt(chunks, n) && StopsAt(chunks, m)
    ensures n == m
  {
  }

  /** The loop itself. */
  method ReadResponse(chunks: seq<string>) returns (response: string, consumed: nat)
    ensures StopsAt(chunks, consumed)
    ensures response == Concat(chunks[..consumed])
  {
    response, consumed := [], 0;
    while consumed < |chunks|
      invariant consumed <= |chunks|
      invariant response == Concat(chunks[..consumed])
      invariant forall k :: 0 < k <= consumed ==> !EndsWithNewline(Concat(chunks[..k]))
    {
      ConcatStep(chunks, consumed);
      response := response + chunks[consumed];
      consumed := consumed + 1;
      if EndsWithNewline(response) {
        break;
      }
    }
  }

  /** The loop collects exactly `Reply`. */
  lemma ReadResponseIsReply(chunks: seq<string>, response: string, consumed: nat)
    requires StopsAt(chunks, consumed) && response == Concat(chunks[..consumed])
    ensures consumed == Consumed(chunks) && response == Reply(chunks)
  {
    StopsAtUnique(chunks, consumed, Consumed(chunks));
  }

  // ---------------------------------------------------------------------------
  // Properties of the loop

  /** The buffer after `n` chunks is a prefix of the whole stream. */
  lemma {:induction false} ConcatPrefix(chunks: seq<string>, n: nat)
    requires n <= |chunks|
    ensures Concat(chunks[..n]) <= Concat(chunks)
    decreases |chunks| - n
  {
    if n < |chunks| {
      ConcatStep(chunks, n);
      ConcatPrefix(chunks, n + 1);
      assert chunks[..|chunks|] == chunks;
    } else {
      assert chunks[..n] == chunks;
    }
  }

  /** The response is what the device sent, in order, up to the stop; nothing is trimmed. */
  lemma ReplyIsPrefix(chunks: seq<string>)
    ensures Reply(chunks) <= Concat(chunks)
  {
    ConcatPrefix(chunks, Consumed(chunks));
  }

  /** A chunk that ends the buffer with a line feed is the last one read. */
  lemma StopsOnTerminatedChunk(chunks: seq<string>, n: nat)
    requires n < |chunks|
    requires forall k :: 0 < k <= n ==> !EndsWithNewline(Concat(chunks[..k]))
    requires EndsWithNewline(chunks[n])
    ensures Consumed(chunks) == n + 1
  {
    ConcatStep(chunks, n);
    assert StopsAt(chunks, n + 1);
    StopsAtUnique(chunks, n + 1, Consumed(chunks));
  }

  /** An empty buffer never ends with a line feed, so it means every wait ran to its timeout. */
  lemma EmptyReplyMeansTimeout(chunks: seq<string>)
    requires Reply(chunks) == []
    ensures Consumed(chunks) == |chunks|
  {
  }

  /** A line feed inside a chunk does not stop reading; only one at the end of the buffer does. */
  lemma InteriorNewlineExample()
    ensures Consumed(["9\n7", "\n", "5\n"]) == 2
    ensures Reply(["9\n7", "\n", "5\n"]) == "9\n7\n"
  {
    var chunks := ["9\n7", "\n", "5\n"];
    assert chunks[..1] == ["9\n7"];
    assert Concat(chunks[..1]) == "9\n7" by {
      assert chunks[..1][..0] == [];
    }
    assert chunks[..2] == ["9\n7", "\n"];
    assert Concat(chunks[..2]) == "9\n7\n" by {
      assert chunks[..2][..1] == ["9\n7"];
      assert ["9\n7"][..0] == [];
    }
    assert StopsAt(chunks, 2);
    StopsAtUnique(chunks, 2, Consumed(chunks));
  }

  /** A device that sends "7" and then falls silent yields the response "7", not an error. */
  lemma UnterminatedExample()
    ensures Reply(["7"]) == "7"
  {
    var chunks := ["7"];
    assert chunks[..1] == chunks;
    assert Concat(chunks) == "7" by {
      assert chunks[..0] == [];
    }
    assert StopsAt(chunks, 1);
    StopsAtUnique(chunks, 1, Consumed(chunks));
  }
}
