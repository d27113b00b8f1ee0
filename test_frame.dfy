/**
 The test-image frame server: it reads one image, binds a frame sink sized
 for it, writes the image into the shared frame once, and then, call after
 call, republishes that frame under a new sample number until the configured
 number of samples has been served, pacing itself to the configured period.
 */
module FrameServer {
  import opened SinkEvents
  import opened Serving

  datatype Option<T> = None | Some(value: T)

  /** A successful value, or the message of the error the server raises. */
  datatype Result<T> = Ok(value: T) | Err(message: string)

  const ReadFailurePrefix: string := "File \""
  const ReadFailureSuffix: string := "\" could not be read."

  /** The message of the error raised when the test image cannot be read. */
  function ReadFailure(fileName: string): string
  {
    ReadFailurePrefix + fileName + ReadFailureSuffix
  }

  /**
   The file a read-failure message names, if the message has that form. This
   is for specification only: the server never parses its own message.
   */
  ghost function NamedFile(message: string): Option<string>
  {
    var p, q := |ReadFailurePrefix|, |ReadFailureSuffix|;
    if |message| >= p + q && message[..p] == ReadFailurePrefix && message[|message| - q..] == ReadFailureSuffix
    then Some(message[p..|message| - q])
    else None
  }

  /** The read-failure message names the file exactly: the name can be recovered from it. */
  lemma ReadFailureNamesFile(fileName: string)
    ensures NamedFile(ReadFailure(fileName)) == Some(fileName)
  {
    var m := ReadFailure(fileName);
    var p, q := |ReadFailurePrefix|, |ReadFailureSuffix|;
    assert m[..p] == ReadFailurePrefix;
    assert m[|m| - q..] == ReadFailureSuffix;
    assert m[p..|m| - q] == fileName;
  }

  class TestFrame {
    /** Path of the test image. */
    const fileName: string
    /** Pixel colour format the image is read and bound with. */
    const color: PixelColor
    /** Number of samples to serve before finishing. */
    const numSamples: nat
    /** Frame period, in clock ticks. */
    const period: int

    /** Pacing reference: the time the last step finished sleeping. */
    var tick: int
    /** Whether the sink is bound and the shared frame retrieved. */
    var bound: bool
    /** The shared frame's sample count. */
    var count: nat
    /** The period stamped on the shared frame. */
    var framePeriod: int

    /** Geometry the sink was bound with. */
    ghost var geometry: Geometry
    /** Calls into the sink and the shared frame, in order. */
    ghost var log: seq<Event>
    /** Durations handed to the pacing sleep, in order. */
    ghost var sleeps: seq<int>

    /**
     The object invariant: the count stays within the ceiling, which fits the
     64-bit counter; before binding nothing has touched the sink; after
     binding the log is the setup followed by one wait/increment/post
     section per served sample, and each served sample slept once.
     */
    ghost predicate Valid()
      reads this
    {
      && count <= numSamples <= U64_MAX
      && |sleeps| == count
      && (!bound ==> count == 0 && log == [])
      && (bound ==> log == SetupLog(geometry, period, color) + Cycles(count) && framePeriod == period)
    }

    /** The part of the state the control step reads and writes. */
    ghost function State(): ServerState
      reads this
    {
      ServerState(count, numSamples, period, tick)
    }

    /**
     What every state of a bound server says about the calls it has made: the
     sink was reserved and bound first, the payload was written exactly once,
     each served sample is one increment bracketed by a wait and a post, and
     no wait precedes the setup.
     */
    lemma SinkHistory()
      requires Valid() && bound
      ensures log[0] == Reserve(PayloadBytes(geometry))
      ensures log[1] == Bind(period, geometry.rows, geometry.cols, color)
      ensures multiset(log)[WritePayload] == 1
      ensures multiset(log)[Wait] == count && multiset(log)[Increment] == count && multiset(log)[Post] == count
      ensures forall i :: 0 <= i < |log| && log[i] == Wait ==> i >= |SetupLog(geometry, period, color)|
      ensures Bracketed(log)
    {
      ServingLog(log, geometry, period, color, count);
    }

    /** A configured, not yet connected server; `now` is the clock at construction. */
    constructor (fileName: string, color: PixelColor, numSamples: nat, period: int, now: int)
      requires numSamples <= U64_MAX
      ensures Valid() && !bound
      ensures this.fileName == fileName && this.color == color
      ensures this.numSamples == numSamples && this.period == period
      ensures tick == now && count == 0 && log == [] && sleeps == []
    {
      this.fileName := fileName;
      this.color := color;
      this.numSamples := numSamples;
      this.period := period;
      tick := now;
      bound := false;
      count := 0;
      framePeriod := 0;
      log := [];
      sleeps := [];
    }

    /**
     Connects to the node. `image` is the outcome of reading the test image:
     its geometry, or None when it could not be read. A failed read raises an
     error naming the file before the sink is touched; otherwise the sink is
     reserved for one frame and bound, the frame is retrieved, the image is
     written into it once and the period is stamped on it.
     */
    method ConnectToNode(image: Option<Geometry>) returns (r: Result<bool>)
      requires Valid() && !bound
      modifies this
      ensures Valid()
      ensures image.None? ==> r == Err(ReadFailure(fileName)) && unchanged(this)
      ensures image.Some? ==>
        && r == Ok(true)
        && bound
        && geometry == image.value
        && log == SetupLog(image.value, period, color)
        && framePeriod == period
        && count == 0
        && tick == old(tick)
        && sleeps == old(sleeps)
    {
      if image.None? {
        return Err(ReadFailure(fileName));
      }
      var g := image.value;
      log := log + [Reserve(PayloadBytes(g))];
      log := log + [Bind(period, g.rows, g.cols, color)];
      geometry := g;
      log := log + [Retrieve];
      log := log + [WritePayload];
      framePeriod := period;
      log := log + [SetPeriod(period)];
      bound := true;
      return Ok(true);
    }

    /**
     One control step. `beforeSleep` is the clock read to size the pacing
     sleep and `afterSleep` the clock read after it. Below the ceiling: wait
     for the sources, advance the sample count, post to the sources, sleep for
     the period less the time since the last step, take "now" as the new
     reference, and continue. At or above the ceiling: finish, touching
     nothing.
     */
    method Process(beforeSleep: int, afterSleep: int) returns (code: int)
      requires Valid() && bound
      modifies this
      ensures Valid() && bound
      ensures State() == Step(old(State()), Readings(beforeSleep, afterSleep)).next
      ensures code == Step(old(State()), Readings(beforeSleep, afterSleep)).code
      ensures old(count) >= numSamples ==> code == Finished && unchanged(this)
      ensures old(count) < numSamples ==>
        && code == Continue
        && count == old(count) + 1
        && log == old(log) + [Wait, Increment, Post]
        && sleeps == old(sleeps) + [SleepRequest(old(tick), period, beforeSleep)]
        && tick == afterSleep
        && framePeriod == old(framePeriod)
        && geometry == old(geometry)
    {
      if count < numSamples {
        log := log + [Wait];
        count := count + 1;
        log := log + [Increment];
        log := log + [Post];
        assert log == SetupLog(geometry, period, color) + Cycles(count);
        sleeps := sleeps + [SleepRequest(tick, period, beforeSleep)];
        tick := afterSleep;
        code := Continue;
      } else {
        code := Finished;
      }
    }
  }
}
