/** Handing a group of datagrams to one upstream socket, one by one or in batches. */
module UdpSending {
  import opened Model

  /** UDP_MAX_RECEIVE_BATCH_SIZE: also the length of the message array of one sendmmsg call. */
  const MAX_BATCH: nat := 64

  datatype SendResult = SentAll | SendFailed(sent: nat)

  /** What reached the wire, in order, and what the caller is told. */
  datatype Outcome = Outcome(wire: seq<seq<Byte>>, result: SendResult)

  ghost predicate ValidIndexes(datagrams: seq<seq<Byte>>, indexes: seq<nat>) {
    |datagrams| > 0 && forall k :: 0 <= k < |indexes| ==> indexes[k] < |datagrams|
  }

  function Payloads(datagrams: seq<seq<Byte>>, indexes: seq<nat>): (r: seq<seq<Byte>>)
    requires ValidIndexes(datagrams, indexes)
    ensures |r| == |indexes|
  {
    seq(|indexes|, k requires 0 <= k < |indexes| => datagrams[indexes[k]])
  }

  /** One send per datagram, stopping at the first the kernel refuses. */
  function OneByOne(payloads: seq<seq<Byte>>, accepts: nat -> bool, sent: nat): Outcome
    requires sent <= |payloads|
    decreases |payloads| - sent
  {
    if sent == |payloads| then Outcome([], SentAll)
    else if !accepts(sent) then Outcome([], SendFailed(sent))
    else
      var rest := OneByOne(payloads, accepts, sent + 1);
      rest.(wire := [payloads[sent]] + rest.wire)
  }

  /** A stop at position n and the prefix before it determine each other. */
  lemma {:induction false} OneByOnePrefix(payloads: seq<seq<Byte>>, accepts: nat -> bool, sent: nat, n: nat)
    requires sent <= n <= |payloads|
    requires forall k: nat :: sent <= k < n ==> accepts(k)
    requires n < |payloads| ==> !accepts(n)
    ensures OneByOne(payloads, accepts, sent)
            == Outcome(payloads[sent..n], if n == |payloads| then SentAll else SendFailed(n))
    decreases n - sent
  {
    if sent < n {
      OneByOnePrefix(payloads, accepts, sent + 1, n);
      assert [payloads[sent]] + payloads[sent + 1..n] == payloads[sent..n];
    }
  }

  method SendIndividually(datagrams: seq<seq<Byte>>, indexes: seq<nat>, accepts: nat -> bool)
    returns (outcome: Outcome)
    requires ValidIndexes(datagrams, indexes)
    ensures outcome == OneByOne(Payloads(datagrams, indexes), accepts, 0)
    ensures outcome.wire <= Payloads(datagrams, indexes)
    ensures outcome.result == if |outcome.wire| == |indexes| then SentAll else SendFailed(|outcome.wire|)
  {
    ghost var payloads := Payloads(datagrams, indexes);
    var wire := [];
    for sent := 0 to |indexes|
      invariant wire == payloads[..sent]
      invariant forall k: nat :: k < sent ==> accepts(k)
    {
      if !accepts(sent) {
        OneByOnePrefix(payloads, accepts, 0, sent);
        return Outcome(wire, SendFailed(sent));
      }
      wire := wire + [datagrams[indexes[sent]]];
    }
    OneByOnePrefix(payloads, accepts, 0, |indexes|);
    outcome := Outcome(wire, SentAll);
  }

  /**
   sendmmsg's answer to call number `call` with n messages: below zero an error, else how many it
   took, never more than it was given.
   */
  function Answer(kernel: (nat, nat) -> int, call: nat, n: nat): int {
    if kernel(call, n) > n then n else kernel(call, n)
  }

  /** The message array of one call: the remaining datagrams, padded with datagram 0. */
  function Messages(datagrams: seq<seq<Byte>>, remaining: seq<nat>): (r: seq<seq<Byte>>)
    requires ValidIndexes(datagrams, remaining)
    ensures |r| == MAX_BATCH
  {
    seq(MAX_BATCH, p requires 0 <= p => if p < |remaining| then datagrams[remaining[p]] else datagrams[0])
  }

  /**
   Batched sending ends, whatever share of each call the kernel takes, with a prefix of the
   requested datagrams on the wire, so some run of SendIndividually does exactly the same.
   */
  method SendBatch(datagrams: seq<seq<Byte>>, indexes: seq<nat>, kernel: (nat, nat) -> int)
    returns (outcome: Outcome)
    requires ValidIndexes(datagrams, indexes) && |indexes| <= MAX_BATCH
    ensures outcome.wire <= Payloads(datagrams, indexes)
    ensures outcome.result == if |outcome.wire| == |indexes| then SentAll else SendFailed(|outcome.wire|)
    ensures exists accepts: nat -> bool :: outcome == OneByOne(Payloads(datagrams, indexes), accepts, 0)
    ensures (forall call: nat, n: nat :: kernel(call, n) >= n) ==> outcome.result.SentAll?
  {
    ghost var payloads := Payloads(datagrams, indexes);
    var sent, calls, wire := 0, 0, [];
    while sent < |indexes|
      invariant sent <= |indexes|
      invariant wire == payloads[..sent]
    {
      var remaining := indexes[sent..];
      var answer := Answer(kernel, calls, |remaining|);
      calls := calls + 1;
      if answer <= 0 {
        OneByOnePrefix(payloads, k => k < sent, 0, sent);
        return Outcome(wire, SendFailed(sent));
      }
      wire := wire + Messages(datagrams, remaining)[..answer];
      sent := sent + answer;
    }
    OneByOnePrefix(payloads, k => true, 0, |indexes|);
    outcome := Outcome(wire, SentAll);
  }
}
