/**
 * The search loops of the vanity-address search, run sequentially.
 *
 * A worker thread is modelled over the addresses of the key pairs it
 * generates, one per pass of its loop; the coordinator is modelled over the
 * messages it receives, in the order it receives them, together with the
 * monotonic-clock reading it takes for each one.
 */
module VanitySearch {
  import opened KeyMatch
  import opened SpeedTracking

  /** A worker reports its progress once every this many key pairs. */
  const BatchSize: nat := 1000

  /** What a worker sends to the coordinator; a found key pair is represented by its address. */
  datatype Message = Iterations(count: nat) | Key(address: string)

  /** The payloads of the `Iterations` messages, in order. */
  function IterationCounts(msgs: seq<Message>): seq<nat>
  {
    if msgs == [] then []
    else
      var last := msgs[|msgs| - 1];
      IterationCounts(msgs[..|msgs| - 1]) + (if last.Iterations? then [last.count] else [])
  }

  /** The addresses carried by the `Key` messages, in order. */
  function KeysOf(msgs: seq<Message>): seq<string>
  {
    if msgs == [] then []
    else
      var last := msgs[|msgs| - 1];
      KeysOf(msgs[..|msgs| - 1]) + (if last.Key? then [last.address] else [])
  }

  /** The addresses that satisfy the predicate, in order. */
  function Matching(config: Config, addresses: seq<string>): seq<string>
  {
    if addresses == [] then []
    else
      var last := addresses[|addresses| - 1];
      Matching(config, addresses[..|addresses| - 1]) + (if Matches(config, last) then [last] else [])
  }

  function Sum(xs: seq<nat>): nat
  {
    if xs == [] then 0 else Sum(xs[..|xs| - 1]) + xs[|xs| - 1]
  }

  /** The samples the coordinator feeds to its tracker: one per `Iterations` message, stamped with its clock reading. */
  function Fed(msgs: seq<Message>, clock: seq<int>): seq<Sample>
    requires |clock| == |msgs|
  {
    if msgs == [] then []
    else
      var n := |msgs| - 1;
      Fed(msgs[..n], clock[..n]) + (if msgs[n].Iterations? then [Sample(clock[n], msgs[n].count)] else [])
  }

  function Max(a: nat, b: nat): nat
  {
    if a < b then b else a
  }

  ghost predicate Monotonic(clock: seq<int>)
  {
    forall i, j :: 0 <= i < j < |clock| ==> clock[i] <= clock[j]
  }

  /** Every progress message carries exactly one full batch. */
  ghost predicate FullBatches(msgs: seq<Message>)
  {
    forall i :: 0 <= i < |msgs| && msgs[i].Iterations? ==> msgs[i].count == BatchSize
  }

  lemma AppendMessage(msgs: seq<Message>, m: Message)
    ensures IterationCounts(msgs + [m]) == IterationCounts(msgs) + (if m.Iterations? then [m.count] else [])
    ensures KeysOf(msgs + [m]) == KeysOf(msgs) + (if m.Key? then [m.address] else [])
    ensures FullBatches(msgs) && (m.Iterations? ==> m.count == BatchSize) ==> FullBatches(msgs + [m])
  {
    assert (msgs + [m])[..|msgs|] == msgs;
  }

  /**
   * One worker thread, for as many passes of its loop as there are addresses:
   * each pass counts one key pair, sends the counter once it reaches a full
   * batch and resets it, then tests the pass's address and sends it if it matches.
   */
  method Worker(config: Config, addresses: seq<string>) returns (sent: seq<Message>, iterations: nat)
    // every progress message carries exactly one full batch
    ensures FullBatches(sent)
    // one progress message per completed batch; the counter holds the rest
    ensures |IterationCounts(sent)| == |addresses| / BatchSize
    ensures iterations == |addresses| % BatchSize
    // every matching address is sent, in order, and nothing else
    ensures KeysOf(sent) == Matching(config, addresses)
  {
    sent, iterations := [], 0;
    var pass := 0;
    ghost var batches := 0;
    while pass < |addresses|
      invariant pass <= |addresses|
      invariant iterations < BatchSize
      invariant batches == |IterationCounts(sent)|
      invariant pass == batches * BatchSize + iterations
      invariant FullBatches(sent)
      invariant KeysOf(sent) == Matching(config, addresses[..pass])
    {
      sent, iterations := CountPass(sent, iterations);
      sent := SendIfMatching(config, addresses[pass], sent);
      if iterations == 0 {
        batches := batches + 1;
      }
      MatchingStep(config, addresses, pass);
      pass := pass + 1;
    }
    assert addresses[..pass] == addresses;
    DivModOfBatches(|addresses|, batches, iterations);
  }

  /** The first half of a pass: count the key pair, and send and reset the counter when it completes a batch. */
  method CountPass(sent: seq<Message>, iterations: nat) returns (sent': seq<Message>, iterations': nat)
    requires iterations < BatchSize
    // the counter counts the pass, and goes back to 0 when it completes a batch
    ensures iterations' == (iterations + 1) % BatchSize
    // a completed batch is sent, and carries a full batch; no key is sent
    ensures IterationCounts(sent') == IterationCounts(sent) + (if iterations' == 0 then [BatchSize] else [])
    ensures FullBatches(sent) ==> FullBatches(sent')
    ensures KeysOf(sent') == KeysOf(sent)
  {
    sent', iterations' := sent, iterations + 1;
    assert iterations' % BatchSize == 0 <==> iterations' == BatchSize;
    if iterations' % BatchSize == 0 {
      AppendMessage(sent', Iterations(iterations'));
      sent' := sent' + [Iterations(iterations')];
      iterations' := 0;
    } else {
      assert IterationCounts(sent') == IterationCounts(sent) + [];
    }
  }

  /** The second half of a pass: send the address if it matches. */
  method SendIfMatching(config: Config, address: string, sent: seq<Message>) returns (sent': seq<Message>)
    // the address is sent exactly when it matches, and no batch is sent
    ensures KeysOf(sent') == KeysOf(sent) + (if Matches(config, address) then [address] else [])
    ensures IterationCounts(sent') == IterationCounts(sent)
    ensures FullBatches(sent) ==> FullBatches(sent')
  {
    sent' := sent;
    if Matches(config, address) {
      AppendMessage(sent', Key(address));
      sent' := sent' + [Key(address)];
    } else {
      assert KeysOf(sent') == KeysOf(sent') + [];
    }
  }

  lemma MatchingStep(config: Config, addresses: seq<string>, pass: nat)
    requires pass < |addresses|
    ensures Matching(config, addresses[..pass + 1])
         == Matching(config, addresses[..pass]) + (if Matches(config, addresses[pass]) then [addresses[pass]] else [])
  {
    assert addresses[..pass + 1][..pass] == addresses[..pass];
  }

  lemma DivModOfBatches(n: nat, batches: nat, rest: nat)
    requires rest < BatchSize && n == batches * BatchSize + rest
    ensures batches == n / BatchSize && rest == n % BatchSize
  {
  }
  /** Sum of a sequence extended by one element. */
  lemma SumAppend(xs: seq<nat>, x: nat)
    ensures Sum(xs + [x]) == Sum(xs) + x
  {
    assert (xs + [x])[..|xs|] == xs;
  }

  /** What receiving message `k` adds to the running totals and to the samples fed. */
  lemma PrefixStep(messages: seq<Message>, clock: seq<int>, k: nat)
    requires |clock| == |messages| && k < |messages|
    ensures Sum(IterationCounts(messages[..k + 1]))
         == Sum(IterationCounts(messages[..k])) + (if messages[k].Iterations? then messages[k].count else 0)
    ensures |KeysOf(messages[..k + 1])| == |KeysOf(messages[..k])| + (if messages[k].Key? then 1 else 0)
    ensures messages[k].Iterations? ==>
              Fed(messages[..k + 1], clock[..k + 1]) == Fed(messages[..k], clock[..k]) + [Sample(clock[k], messages[k].count)]
    ensures messages[k].Key? ==> Fed(messages[..k + 1], clock[..k + 1]) == Fed(messages[..k], clock[..k])
  {
    assert messages[..k + 1] == messages[..k] + [messages[k]];
    assert messages[..k + 1][..k] == messages[..k] && clock[..k + 1][..k] == clock[..k];
    AppendMessage(messages[..k], messages[k]);
    if messages[k].Iterations? {
      SumAppend(IterationCounts(messages[..k]), messages[k].count);
    } else {
      assert IterationCounts(messages[..k + 1]) == IterationCounts(messages[..k]);
      assert Fed(messages[..k + 1], clock[..k + 1]) == Fed(messages[..k], clock[..k]) + [];
    }
  }

  /** With a monotonic clock the samples fed are in timestamp order. */
  lemma {:induction false} FedInOrder(msgs: seq<Message>, clock: seq<int>)
    requires |clock| == |msgs| && Monotonic(clock)
    ensures NonDecreasing(Fed(msgs, clock))
    ensures forall i :: 0 <= i < |Fed(msgs, clock)| ==> exists j :: 0 <= j < |clock| && Fed(msgs, clock)[i].time == clock[j]
  {
    if msgs != [] {
      var n := |msgs| - 1;
      assert Monotonic(clock[..n]);
      FedInOrder(msgs[..n], clock[..n]);
      var prev := Fed(msgs[..n], clock[..n]);
      if msgs[n].Iterations? {
        forall i | 0 <= i < |prev|
          ensures prev[i].time <= clock[n]
        {
          var j :| 0 <= j < n && prev[i].time == clock[..n][j];
        }
        AppendNonDecreasing(prev, Sample(clock[n], msgs[n].count));
      }
    }
  }

  /**
   * The coordinator's tracker covers one window: with a monotonic clock, the
   * samples it holds after any prefix of the messages are in order and none is
   * more than five seconds older than the latest batch received.
   */
  lemma TrackerCoversWindow(messages: seq<Message>, clock: seq<int>)
    requires |clock| == |messages| && Monotonic(clock)
    requires Fed(messages, clock) != []
    ensures var fed := Fed(messages, clock);
            Windowed(Replay(fed, DefaultWindow), fed[|fed| - 1].time, DefaultWindow)
  {
    FedInOrder(messages, clock);
    ReplayWindowed(Fed(messages, clock), DefaultWindow);
  }

  /**
   * The coordinator's receive loop: add every batch to the running total and
   * feed it to a five-second tracker stamped with the clock reading, count
   * every found key, and stop right after the key that brings the count to
   * `limit`. `stopped` is false when the messages ran out first.
   */
  method Coordinate(messages: seq<Message>, clock: seq<int>, limit: nat)
    returns (consumed: nat, totalIterations: nat, foundKeys: nat, stopped: bool, samples: seq<Sample>)
    requires |clock| == |messages|
    ensures consumed <= |messages|
    // the running total is the sum of the batches received, the count the number of keys received
    ensures totalIterations == Sum(IterationCounts(messages[..consumed]))
    ensures foundKeys == |KeysOf(messages[..consumed])|
    // the loop stops on the key that reaches the limit (a limit of 0 acts as 1) and reads nothing after it
    ensures stopped ==> 0 < consumed && messages[consumed - 1].Key? && foundKeys == Max(limit, 1)
    ensures !stopped ==> consumed == |messages| && foundKeys < Max(limit, 1)
    // the tracker holds what feeding it the batches received, stamped with their clock readings, leaves
    ensures samples == Replay(Fed(messages[..consumed], clock[..consumed]), DefaultWindow)
  {
    var tracker := new SpeedTracker(DefaultWindow);
    consumed, totalIterations, foundKeys, stopped := 0, 0, 0, false;
    ghost var fed: seq<Sample> := [];
    while consumed < |messages|
      invariant consumed <= |messages|
      invariant totalIterations == Sum(IterationCounts(messages[..consumed]))
      invariant foundKeys == |KeysOf(messages[..consumed])|
      invariant foundKeys < Max(limit, 1)
      invariant fed == Fed(messages[..consumed], clock[..consumed])
      invariant tracker.recentIterations == Replay(fed, DefaultWindow)
      invariant fresh(tracker)
    {
      var msg, now := messages[consumed], clock[consumed];
      PrefixStep(messages, clock, consumed);
      consumed := consumed + 1;
      match msg
      case Iterations(num) =>
        totalIterations := totalIterations + num;
        ReplayStep(fed, Sample(now, num), DefaultWindow);
        fed := fed + [Sample(now, num)];
        // everything but the tracker is settled before the tracker changes
        assert fed == Fed(messages[..consumed], clock[..consumed]);
        assert totalIterations == Sum(IterationCounts(messages[..consumed]));
        assert foundKeys == |KeysOf(messages[..consumed])|;
        tracker.AddIterations(now, num);
      case Key(_) =>
        foundKeys := foundKeys + 1;
        if foundKeys >= limit {
          stopped := true;
          break;
        }
    }
    samples := tracker.recentIterations;
  }
}
