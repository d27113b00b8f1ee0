# Test-image frame server: control step and node setup

This project models the core of Oat's test-image frame server (`TestFrame`).
The server reads one image from disk. It binds a frame sink sized for that
image and writes the image into the shared frame once. Then, call after call
of its control step `process`, it republishes the same frame under a new
sample number. Each call passes through the sink's wait/post handshake and
sleeps to keep the configured frame period. It stops when the configured
number of samples has been served.

The project has three modules:

- `SinkEvents` (`sink_events.dfy`): the calls the server makes on its frame
  sink and shared frame, as events in a log. It defines the setup done when
  connecting and the wait / increment / post section of each served sample,
  with lemmas about the shape of any log a bound server can produce.
- `Serving` (`serving.dfy`): one control step as a function `Step` on the
  values it reads and writes. These are the sample count, the ceiling
  `numSamples`, the period and the pacing reference `tick`. `Run` chains
  consecutive steps. The lemmas cover the return codes, the ceiling and the
  pacing.
- `FrameServer` (`test_frame.dfy`): the class `TestFrame`. Its fields are the
  configuration, the pacing reference, the bound flag, the shared frame's
  count and period, the ghost geometry the sink was bound with, and ghost
  logs of sink events and sleep durations. It has
  the methods `ConnectToNode` and `Process`. The object invariant `Valid()`
  ties the log to the count: after binding, the log is the setup followed by
  one wait/increment/post section per served sample. `Process` is proved
  against `Serving.Step`.

Time is an integer number of clock ticks. The clock is not read by the model:
`Process` takes two readings as parameters. The first, `beforeSleep`, sizes
the sleep. The second, `afterSleep`, is read after the sleep and becomes the
new reference. The constructor takes the construction-time reading. Whether
the image could be read, and its geometry, reach `ConnectToNode` as an
`Option<Geometry>` parameter.

The pacing reproduces the source as written. The sleep is the period less the
time since the previous reference. A non-positive duration does not block.
The reference is then reset to "now", not advanced by one period, so time lost
in an overrunning iteration is never made up (`Serving.ReferenceResetsToNow`,
`Serving.OverrunIsNotRecovered`). The source does not correct this drift
(src/frameserver/TestFrame.cpp:119-120), and the model keeps it.

## Model

| member | source | states |
|---|---|---|
| `FrameServer.TestFrame.constructor` | src/frameserver/TestFrame.cpp:31-36 | A new server is unbound and has touched nothing on the sink. Its count is 0 and its pacing reference is the clock reading at construction. |
| `FrameServer.TestFrame.ConnectToNode` | src/frameserver/TestFrame.cpp:80-98 | An unreadable image gives an error whose message names the file, and nothing changes, so no reserve or bind happens. Otherwise it returns true with the sink bound. The log is exactly: reserve rows*cols*elemSize bytes, bind with the configured period/rows/cols/colour, retrieve, write the payload once, stamp the period. The shared frame's period equals the configured one. |
| `FrameServer.TestFrame.Process` | src/frameserver/TestFrame.cpp:100-126 | At or above the ceiling it returns 1 and nothing changes: no wait, increment, post or sleep. Below it, it returns 0 after appending exactly wait, increment, post to the log. The count goes up by one, the requested sleep is `period - (beforeSleep - tick)` and `tick` becomes the after-sleep reading. The payload and the period are untouched. The new state is `Serving.Step` of the old one. |
| `FrameServer.TestFrame.SinkHistory` | src/frameserver/TestFrame.cpp:84-114 | In every reachable bound state the first sink calls were reserve, then bind. The payload was written exactly once. There are exactly `count` waits, increments and posts, no wait comes before the setup, and every increment sits directly between a wait and a post. |
| `FrameServer.ReadFailureNamesFile` | src/frameserver/TestFrame.cpp:84-85 | The read-failure message names the file exactly: the file name can be recovered from the message. |
| `SinkEvents.CyclesAt` | src/frameserver/TestFrame.cpp:107-114 | The events of `k` served samples are `k` copies of wait, increment, post, in that order. |
| `SinkEvents.CyclesCount` | src/frameserver/TestFrame.cpp:107-114 | `k` served samples hold exactly `k` waits, `k` increments and `k` posts, and no payload write. |
| `SinkEvents.SetupCount` | src/frameserver/TestFrame.cpp:87-95 | Connecting writes the payload once and makes no wait, increment or post. |
| `SinkEvents.CyclesBracketed` | src/frameserver/TestFrame.cpp:107-114 | In the served-sample events, every increment has a wait just before it and a post just after it. |
| `SinkEvents.ServingLog` | src/frameserver/TestFrame.cpp:84-114 | For a setup log followed by `k` served samples: reserve comes first and bind second, one payload write, `k` waits, increments and posts, every wait after the setup, and the increments bracketed. |
| `Serving.RunCodes` | src/frameserver/TestFrame.cpp:102-125 | In any run of consecutive calls, call `i` returns 0 exactly when the starting count plus `i` is below `numSamples`, and 1 otherwise. The count climbs to the ceiling and stays there. The ceiling and the period never change. |
| `Serving.ServesExactly` | src/frameserver/TestFrame.cpp:102-125 | From count 0, exactly `numSamples` calls return 0, the next returns 1, and the count ends at `numSamples`. |
| `Serving.FinishedStaysFinished` | src/frameserver/TestFrame.cpp:102-125 | Once the count is at or above the ceiling, every further call returns 1 and the state never changes. |
| `Serving.CountWithinCeiling` | src/frameserver/TestFrame.cpp:102-111 | A count that starts within `numSamples` never exceeds it, after any number of calls. |
| `Serving.NeverFasterThanPeriod` | src/frameserver/TestFrame.cpp:119-120 | With a real clock and a sleep that blocks at least as asked, `k` serving calls move the pacing reference forward by at least `k` periods. |
| `Serving.ReferenceResetsToNow` | src/frameserver/TestFrame.cpp:119-120 | With an exact sleep, the new reference is the later of "now" and the old reference plus one period. An overrun is not carried over. |
| `Serving.OverrunIsNotRecovered` | src/frameserver/TestFrame.cpp:119-120 | A concrete run with period 10. An overrun of 25 ticks in the first iteration is not made up by a second iteration that does no work. The run ends at 35, not at the 20 an absolute schedule would reach. |

## Left out

- `TestFrame::options` and `TestFrame::applyConfiguration`: command-line and
  TOML option parsing. The configured values (file name, colour, number of
  samples, period) are constructor parameters instead. The conversion of a
  floating-point frame rate into a period is not modelled: the period is an
  integer number of clock ticks.
- Reading and copying the image with OpenCV (`cv::imread`, `copyFrom`, the
  colour-to-read-mode mapping): the read outcome is an `Option<Geometry>`
  parameter, and the copy is the single `WritePayload` event. Pixel contents
  are not modelled.
- The frame sink's own operations (`reserve`, `bind`, `retrieve`, `wait`,
  `post`): they rest on shared memory and semaphores and are not part of this
  model. Each is recorded as an event. The blocking of `wait` and any
  cross-process concurrency are not modelled.
- The real clock and the real thread sleep. The sleep is recorded as the
  requested duration in the ghost `sleeps` log. How long a sleep actually
  blocks is an assumption of the pacing lemmas (`Serving.Paced`).
- The shared frame's sample count is taken to be 0 when the sink is bound,
  because the frame header's initialisation is not part of this model.
- `FrameServer.TestFrame.ConnectToNode` requires an unbound server: the
  server connects once. What the sink does on a second bind is not part of
  this model.
- `FrameServer.TestFrame.Process` requires a bound server. The source
  dereferences the shared frame, which exists only after connecting.
- The 64-bit width of the count and the ceiling is an invariant
  (`numSamples <= 2^64 - 1`). The count never passes the ceiling, so it never
  wraps.
- The pixel colour formats are the two named by the colour option (mono,
  bgr). Other formats are not modelled.
- `src/positiondetector/HSVDetector.h`: declarations only (colour
  thresholding, morphology, tuning-GUI callbacks), with no behaviour to state.
