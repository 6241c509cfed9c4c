/** The streaming variant: a producer normalises each input token to a frame
    and queues it, or shuts the pipeline down on the sentinel "exit"; a
    consumer takes the oldest frame, decodes it with the modem, and appends one
    digit to every user's decoded history. The two threads are modelled by
    their sequential effect on one explicit object holding the queue, the
    running flag and the histories. */
module StreamingPipeline {
  import opened Modem

  /** The token that shuts the pipeline down. */
  const Sentinel: string := "exit"

  /** The producer's normalisation: input shorter than `length_m` is padded on
      the right with '0' to exactly `length_m` characters; longer input is kept
      as it is. */
  function Padded(data: string): (frame: string)
    ensures |frame| >= |data| && frame[..|data|] == data
    ensures |data| < LengthM ==> |frame| == LengthM
    ensures |data| >= LengthM ==> frame == data
    ensures forall i :: |data| <= i < |frame| ==> frame[i] == '0'
  {
    if |data| < LengthM then data + seq(LengthM - |data|, _ => '0') else data
  }

  /** The character `std::to_string` gives for a decoded bit 0 or 1. Reading
      the digit back as a frame character gives the bit again. */
  function Digit(bit: int): (ch: char)
    ensures ch == '0' || ch == '1'
    ensures ch == '0' <==> bit == 0
    ensures (bit == 0 || bit == 1) ==> BitOf(ch) == bit
  {
    if bit == 0 then '0' else '1'
  }

  /** Every queued frame is long enough to be spread over `length_m` users. */
  ghost predicate AllFrames(queue: seq<string>)
  {
    forall k :: 0 <= k < |queue| ==> |queue[k]| >= LengthM
  }

  /** The histories after one more frame: user u's history gains the digit of
      frame character u. */
  ghost function Appended(histories: seq<string>, frame: string): (h: seq<string>)
    requires |histories| == LengthM && |frame| >= LengthM
  {
    seq(LengthM, u requires 0 <= u < LengthM => histories[u] + [Digit(BitOf(frame[u]))])
  }

  /** The histories after a run of frames, taken front first. */
  ghost function Replayed(histories: seq<string>, frames: seq<string>): (h: seq<string>)
    requires |histories| == LengthM && AllFrames(frames)
    ensures |h| == LengthM
    decreases |frames|
  {
    if frames == [] then histories else Replayed(Appended(histories, frames[0]), frames[1..])
  }

  /** Frames are decoded in queue order: after a run of frames, user u's
      history is its old history followed by character u of every frame, in
      the order the frames were queued. */
  lemma {:induction false} ReplayedInOrder(histories: seq<string>, frames: seq<string>, u: nat)
    requires |histories| == LengthM && AllFrames(frames) && u < LengthM
    ensures Replayed(histories, frames)[u]
            == histories[u] + seq(|frames|, f requires 0 <= f < |frames| => Digit(BitOf(frames[f][u])))
    decreases |frames|
  {
    var tail := seq(|frames|, f requires 0 <= f < |frames| => Digit(BitOf(frames[f][u])));
    if frames == [] {
      assert tail == [];
    } else {
      var rest := frames[1..];
      ReplayedInOrder(Appended(histories, frames[0]), rest, u);
      var restTail := seq(|rest|, f requires 0 <= f < |rest| => Digit(BitOf(rest[f][u])));
      assert tail == [Digit(BitOf(frames[0][u]))] + restTail;
    }
  }

  /** The tokens the producer queues, as frames: every token up to the first
      one that pads to the sentinel. */
  ghost function Accepted(tokens: seq<string>): seq<string>
  {
    if tokens == [] || Padded(tokens[0]) == Sentinel then []
    else [Padded(tokens[0])] + Accepted(tokens[1..])
  }

  /** The global state `input_queue`, `running` and `decoded_signals` of the
      streaming program. */
  class Pipeline {
    var inputQueue: seq<string>
    var running: bool
    var decodedSignals: seq<string>

    /** One history per user, all of the same length (one digit per decoded
      frame), made of the digits '0' and '1'; every queued frame is long
      enough to decode. */
    ghost predicate Valid()
      reads this
    {
      && |decodedSignals| == LengthM
      && AllFrames(inputQueue)
      && (forall u :: 0 <= u < LengthM ==> |decodedSignals[u]| == |decodedSignals[0]|)
      && (forall u, t :: 0 <= u < LengthM && 0 <= t < |decodedSignals[u]| ==>
            decodedSignals[u][t] == '0' || decodedSignals[u][t] == '1')
    }

    /** The initial globals: an empty queue, running, and empty histories. */
    constructor ()
      ensures Valid()
      ensures inputQueue == [] && running && decodedSignals == seq(LengthM, _ => "")
    {
      inputQueue := [];
      running := true;
      decodedSignals := seq(LengthM, _ => "");
    }

    /** One pass of the producer loop once a token has been read: pad it, then
        either shut down on the sentinel or queue the frame at the back. */
    method Submit(data: string)
      requires Valid() && running
      modifies this
      ensures Valid() && decodedSignals == old(decodedSignals)
      ensures Padded(data) == Sentinel ==> !running && inputQueue == old(inputQueue)
      ensures Padded(data) != Sentinel ==> running && inputQueue == old(inputQueue) + [Padded(data)]
    {
      var frame := Padded(data);
      if frame == Sentinel {
        running := false;
        return;
      }
      inputQueue := inputQueue + [frame];
    }

    /** The producer thread fed with a sequence of tokens in place of the
        console: it queues every token before the first sentinel and stops
        running exactly when a sentinel arrives. */
    method RunProducer(tokens: seq<string>)
      requires Valid() && running
      modifies this
      ensures Valid() && decodedSignals == old(decodedSignals)
      ensures inputQueue == old(inputQueue) + Accepted(tokens)
      ensures !running <==> exists i :: 0 <= i < |tokens| && Padded(tokens[i]) == Sentinel
    {
      var k := 0;
      while running && k < |tokens|
        invariant 0 <= k <= |tokens|
        invariant Valid() && decodedSignals == old(decodedSignals)
        invariant running ==> inputQueue + Accepted(tokens[k..]) == old(inputQueue) + Accepted(tokens)
        invariant running ==> forall i :: 0 <= i < k ==> Padded(tokens[i]) != Sentinel
        invariant !running ==> inputQueue == old(inputQueue) + Accepted(tokens)
        invariant !running ==> 0 < k && Padded(tokens[k - 1]) == Sentinel
      {
        assert tokens[k..][1..] == tokens[k + 1..];
        Submit(tokens[k]);
        k := k + 1;
      }
      assert tokens[k..] == [] || !running;
    }

    /** One pass of the consumer loop after its wait has returned (the queue
        is not empty, or the pipeline has stopped running): stop if there is
        nothing left and no more will come, otherwise take the front frame,
        decode it for every user (the same steps as the single-frame program),
        and append one digit to every user's history. By the round trip the
        digit appended for user u is the frame's own character u. */
    method ConsumeOne() returns (stopped: bool)
      requires Valid()
      requires inputQueue != [] || !running
      modifies this
      ensures Valid() && running == old(running)
      ensures stopped <==> old(inputQueue) == []
      ensures stopped ==> inputQueue == old(inputQueue) && decodedSignals == old(decodedSignals)
      ensures !stopped ==> inputQueue == old(inputQueue)[1..]
      ensures !stopped ==> decodedSignals == Appended(old(decodedSignals), old(inputQueue)[0])
    {
      if !running && inputQueue == [] {
        stopped := true;
        return;
      }
      stopped := false;
      var data := inputQueue[0];
      inputQueue := inputQueue[1..];

      var decodedUsers := DecodeFrame(data);
      ghost var before := decodedSignals;
      for i := 0 to LengthM
        invariant running == old(running) && inputQueue == old(inputQueue)[1..]
        invariant |decodedSignals| == LengthM
        invariant forall u :: 0 <= u < i ==> decodedSignals[u] == before[u] + [Digit(BitOf(data[u]))]
        invariant forall u :: i <= u < LengthM ==> decodedSignals[u] == before[u]
      {
        decodedSignals := decodedSignals[i := decodedSignals[i] + [Digit(decodedUsers[i])]];
      }
      assert decodedSignals == Appended(before, data);
    }

    /** The consumer loop as written, run while the producer is idle. Its guard
        is `running` alone, so it decodes every queued frame and parks in the
        wait (`waiting`) while the pipeline runs, but once the pipeline has
        stopped it exits at once and the frames still queued are never
        decoded. */
    method DrainAsWritten() returns (waiting: bool)
      requires Valid()
      modifies this
      ensures Valid() && running == old(running)
      ensures old(running) ==> waiting && inputQueue == []
                               && decodedSignals == Replayed(old(decodedSignals), old(inputQueue))
      ensures !old(running) ==> !waiting && inputQueue == old(inputQueue)
                                && decodedSignals == old(decodedSignals)
    {
      waiting := false;
      while running
        invariant Valid() && running == old(running)
        invariant Replayed(decodedSignals, inputQueue) == Replayed(old(decodedSignals), old(inputQueue))
        invariant !running ==> inputQueue == old(inputQueue) && decodedSignals == old(decodedSignals)
        decreases |inputQueue|
      {
        if inputQueue == [] {
          waiting := true;
          break;
        }
        var stopped := ConsumeOne();
      }
    }

    /** The consumer loop with the guard `running || !input_queue.empty()`,
        run while the producer is idle: every queued frame is decoded, in queue
        order, and the consumer then parks in the wait exactly when the
        pipeline is still running, and has stopped otherwise. */
    method Drain() returns (waiting: bool)
      requires Valid()
      modifies this
      ensures Valid() && running == old(running)
      ensures inputQueue == [] && decodedSignals == Replayed(old(decodedSignals), old(inputQueue))
      ensures waiting == running
    {
      waiting := false;
      while running || inputQueue != []
        invariant Valid() && running == old(running) && !waiting
        invariant Replayed(decodedSignals, inputQueue) == Replayed(old(decodedSignals), old(inputQueue))
        decreases |inputQueue|
      {
        if inputQueue == [] {
          waiting := true;
          break;
        }
        var stopped := ConsumeOne();
      }
    }
  }

  /** Two frames and then the sentinel arrive before the consumer first
      reaches its loop guard: as written, both frames are left in the queue
      undecoded. */
  method ShutdownDropsFrames() returns (left: seq<string>, histories: seq<string>)
    ensures left == ["0101", "1100"]
    ensures histories == ["", "", "", ""]
  {
    var p := new Pipeline();
    p.Submit("0101");
    p.Submit("1100");
    p.Submit("exit");
    var waiting := p.DrainAsWritten();
    left, histories := p.inputQueue, p.decodedSignals;
  }

  /** The same arrivals while the consumer is already parked in its wait: the
      wake-up decodes the first frame, then the loop guard ends the consumer
      and the second frame is left in the queue undecoded. */
  method ShutdownWhileWaitingDropsFrame() returns (left: seq<string>, histories: seq<string>)
    ensures left == ["1100"]
    ensures histories == ["0", "1", "0", "1"]
  {
    var p := new Pipeline();
    p.Submit("0101");
    p.Submit("1100");
    p.Submit("exit");
    assert p.inputQueue == ["0101", "1100"];
    var stopped := p.ConsumeOne();
    var waiting := p.DrainAsWritten();
    left, histories := p.inputQueue, p.decodedSignals;
    OneFrameAppended();
  }

  /** Decoding `0101` into empty histories leaves user u with character u. */
  lemma OneFrameAppended()
    ensures Appended(seq(LengthM, _ => ""), "0101") == ["0", "1", "0", "1"]
  {
    var h := Appended(seq(LengthM, _ => ""), "0101");
    forall u | 0 <= u < LengthM
      ensures h[u] == [Digit(BitOf("0101"[u]))]
    {
    }
  }

  /** The same arrivals with the corrected guard: both frames are decoded, in
      order, and every user's history holds that user's two bits. */
  method ShutdownDrainsFrames() returns (left: seq<string>, histories: seq<string>)
    ensures left == []
    ensures histories == ["01", "11", "00", "10"]
  {
    var p := new Pipeline();
    p.Submit("0101");
    p.Submit("1100");
    p.Submit("exit");
    assert p.inputQueue == ["0101", "1100"];
    var waiting := p.Drain();
    left, histories := p.inputQueue, p.decodedSignals;
    TwoFramesReplayed();
  }

  /** Decoding `0101` and then `1100` into empty histories leaves user u with
      character u of each frame, in order. */
  lemma TwoFramesReplayed()
    ensures Replayed(seq(LengthM, _ => ""), ["0101", "1100"]) == ["01", "11", "00", "10"]
  {
    var frames := ["0101", "1100"];
    var h := Replayed(seq(LengthM, _ => ""), frames);
    forall u | 0 <= u < LengthM
      ensures h[u] == [Digit(BitOf(frames[0][u])), Digit(BitOf(frames[1][u]))]
    {
      ReplayedInOrder(seq(LengthM, _ => ""), frames, u);
      assert h[u] == "" + seq(2, f requires 0 <= f < 2 => Digit(BitOf(frames[f][u])));
    }
  }
}
