/**
 The events that the test-image frame server causes on its frame sink and on
 the shared frame it publishes: the one-time setup done when it connects to
 its node, and the wait / increment / post bracket of every served sample.
 The sink's own machinery (shared memory, semaphores) is not modelled; each
 call into it is one event in a log.
 */
module SinkEvents {

  /** Pixel colour format of the served image (the `color` option: mono or bgr). */
  datatype PixelColor = Mono | Bgr

  /** Geometry of the image read from disk: rows, columns and bytes per pixel. */
  datatype Geometry = Geometry(rows: nat, cols: nat, elemSize: nat)

  datatype Event =
    | Reserve(bytes: nat)                                          // frame_sink_.reserve
    | Bind(period: int, rows: nat, cols: nat, color: PixelColor)   // frame_sink_.bind
    | Retrieve                                                     // frame_sink_.retrieve
    | WritePayload                                                 // copy of the image into the shared frame
    | SetPeriod(period: int)                                       // shared frame's period stamped
    | Wait                                                         // frame_sink_.wait: sources have read
    | Increment                                                    // shared frame's sample count advanced
    | Post                                                         // frame_sink_.post: new data for sources

  /** Bytes needed for one frame: total pixels times bytes per pixel. */
  function PayloadBytes(g: Geometry): nat
  {
    g.rows * g.cols * g.elemSize
  }

  /** What connecting to the node does, in order. */
  function SetupLog(g: Geometry, period: int, color: PixelColor): seq<Event>
  {
    [Reserve(PayloadBytes(g)), Bind(period, g.rows, g.cols, color), Retrieve, WritePayload, SetPeriod(period)]
  }

  /** The critical section of one served sample. */
  const Cycle: seq<Event> := [Wait, Increment, Post]

  /** The events of `k` served samples, one critical section after the other. */
  function Cycles(k: nat): seq<Event>
  {
    if k == 0 then [] else Cycles(k - 1) + Cycle
  }

  /** Every increment of the sample count sits between a wait and a post. */
  ghost predicate Bracketed(log: seq<Event>)
  {
    forall i :: 0 <= i < |log| && log[i] == Increment ==>
      0 < i < |log| - 1 && log[i - 1] == Wait && log[i + 1] == Post
  }

  /** `k` critical sections are `k` copies of wait, increment, post. */
  lemma {:induction false} CyclesAt(k: nat)
    ensures |Cycles(k)| == 3 * k
    ensures forall i :: 0 <= i < 3 * k ==> Cycles(k)[i] == Cycle[i % 3]
  {
    if k > 0 {
      CyclesAt(k - 1);
      var prev, next := Cycles(k - 1), Cycles(k);
      assert next == prev + Cycle;
      forall i | 0 <= i < 3 * k
        ensures next[i] == Cycle[i % 3]
      {
        if i < 3 * (k - 1) {
          assert next[i] == prev[i];
        } else {
          var j := i - 3 * (k - 1);
          assert 0 <= j < 3;
          assert i % 3 == j;
          assert next[i] == Cycle[j];
        }
      }
    }
  }

  /**
   `k` critical sections hold exactly `k` waits, increments and posts, and
   nothing else: in particular no payload write and no binding.
   */
  lemma {:induction false} CyclesCount(k: nat)
    ensures |Cycles(k)| == 3 * k
    ensures multiset(Cycles(k))[Wait] == k
    ensures multiset(Cycles(k))[Increment] == k
    ensures multiset(Cycles(k))[Post] == k
    ensures multiset(Cycles(k))[WritePayload] == 0
  {
    if k > 0 {
      CyclesCount(k - 1);
      assert Cycles(k) == Cycles(k - 1) + Cycle;
      assert multiset(Cycle) == multiset{Wait, Increment, Post};
    }
  }

  /** The setup writes the payload once and holds no wait, increment or post. */
  lemma SetupCount(g: Geometry, period: int, color: PixelColor)
    ensures multiset(SetupLog(g, period, color))[WritePayload] == 1
    ensures multiset(SetupLog(g, period, color))[Wait] == 0
    ensures multiset(SetupLog(g, period, color))[Increment] == 0
    ensures multiset(SetupLog(g, period, color))[Post] == 0
  {
    var setup := SetupLog(g, period, color);
    assert multiset(setup) == multiset{Reserve(PayloadBytes(g)), Bind(period, g.rows, g.cols, color), Retrieve, WritePayload, SetPeriod(period)};
  }

  /** In the served-sample events every increment has a wait before it and a post after it. */
  lemma CyclesBracketed(k: nat)
    ensures Bracketed(Cycles(k))
  {
    CyclesAt(k);
    var log := Cycles(k);
    forall i | 0 <= i < |log| && log[i] == Increment
      ensures 0 < i < |log| - 1 && log[i - 1] == Wait && log[i + 1] == Post
    {
      assert i % 3 == 1;
      assert log[i - 1] == Cycle[(i - 1) % 3];
      assert log[i + 1] == Cycle[(i + 1) % 3];
    }
  }

  /**
   The log of a server that has connected and then served `k` samples: the
   sink is reserved and bound before anything else, the payload is written
   exactly once, every wait comes after the setup, there are exactly `k`
   waits, increments and posts, and each increment is bracketed by a wait and
   a post.
   */
  lemma ServingLog(log: seq<Event>, g: Geometry, period: int, color: PixelColor, k: nat)
    requires log == SetupLog(g, period, color) + Cycles(k)
    ensures && log[0] == Reserve(PayloadBytes(g))
      && log[1] == Bind(period, g.rows, g.cols, color)
      && multiset(log)[WritePayload] == 1
      && multiset(log)[Wait] == k
      && multiset(log)[Increment] == k
      && multiset(log)[Post] == k
      && (forall i :: 0 <= i < |log| && log[i] == Wait ==> i >= |SetupLog(g, period, color)|)
      && Bracketed(log)
  {
    var setup := SetupLog(g, period, color);
    var cycles := Cycles(k);
    CyclesCount(k);
    CyclesBracketed(k);
    SetupCount(g, period, color);
    assert multiset(log) == multiset(setup) + multiset(cycles);
    forall i | 0 <= i < |log| && log[i] == Wait
      ensures i >= |setup|
    {
    }
    forall i | 0 <= i < |log| && log[i] == Increment
      ensures 0 < i < |log| - 1 && log[i - 1] == Wait && log[i + 1] == Post
    {
      assert i >= |setup|;
      var j := i - |setup|;
      assert cycles[j] == Increment;
      assert log[i - 1] == cycles[j - 1];
      assert log[i + 1] == cycles[j + 1];
    }
  }
}
