# Photobooth capture and strip layout, modelled in Dafny

The photobooth page (`app/page.tsx`) does three deterministic things, and this project models them:

- **Capture sequencer** (`capture_sequencer.dfy`, module `CaptureSequencer`). The page keeps its state in `phase` (idle, countdown or result), `count` (the countdown number or null), `stripUrl` and `cameraReady`. Here that state is the class `Booth`. START runs `startSequence`. It clears the strip and takes four shots. Before each shot it counts down 8, 7, …, 1 at one-second steps. It then blanks the number, captures a still and pauses. At the end it builds the strip and shows the result. RESTART runs `reset`. Timers and the camera are abstract steps. A ghost `trace` records each step together with what the page shows at that moment (`Tick`, `Shoot`, `Settle`). The capture is a parameter `capture: nat -> Still`, so shot `k` yields the opaque still `capture(k)`.
- **Strip composer** (`strip_composer.dfy`, module `StripComposer`). `buildStrip` makes a canvas 400 pixels wide with a 24-pixel margin. Each photo slot is 352 × 440; 440 is `Math.round(352 * 1.25)`, which is exact. The canvas height depends on the number of photos. Photo `i` goes at `(24, 24 + 464 i)`. The draw loop is the method `BuildStrip`. It records the sequence of `drawImage` commands (image, source crop, destination rectangle) instead of painting pixels. The result is proved equal to the specification function `Layout`.
- **Cover crop** (`cover_crop.dfy`, module `CoverCrop`). `drawImageCover` picks the source rectangle that fills the target without distortion. `Cover` computes it with exact `real` arithmetic. `IsCover` is an independent description: inside the image, the target's aspect ratio, centred, and one full dimension kept. The two are proved equivalent, and the cover crop is proved to be the largest crop of that shape.

Where the code and the component description differ, the model follows the code. The code's countdown starts at 8, not 3. It greys the image with a canvas filter string, not a per-pixel luminance formula. It has no printing-countdown phase, no overlay textures and no camera release.

## Model

| member | source | states |
|---|---|---|
| `CoverCrop.Cover` | app/page.tsx:118-134 | the crop is non-empty, lies inside the image, has the target's aspect ratio (`sw*h == sh*w`) and is centred (`2*sx + sw == iw`, `2*sy + sh == ih`); a wider image keeps its full height (`sy == 0`) and trims both sides, otherwise the full width is kept (`sx == 0`) and top and bottom are trimmed |
| `CoverCrop.CoverIsLargest` | app/page.tsx:118-134 | every crop of the target's aspect ratio that fits in the image is, in both width and height, at most the cover crop |
| `CoverCrop.CoverUnique` | app/page.tsx:118-134 | any crop meeting the reference description `IsCover` equals `Cover`, so the two definitions agree |
| `CoverCrop.CoverLandscapeIntoPortrait` | app/page.tsx:118-134 | an 800 × 600 image drawn into the 352 × 440 slot is cropped to `(160, 0, 480, 600)` |
| `StripComposer.StripHeight` | app/page.tsx:72-82 | canvas height for `n` photos is `24 + 464 n`; for `n > 0` it ends exactly one margin below the last photo; for four photos it is 1880 |
| `StripComposer.DrawImageCover` | app/page.tsx:110-137 | draws the given image into the given rectangle, through a source crop that satisfies `IsCover` for that rectangle's shape |
| `StripComposer.BuildStrip` | app/page.tsx:68-108 | the strip built by the loop equals `Layout(images)`: width 400, height `StripHeight(n)`, and draw `k` is the cover-cropped image `k` in slot `k` |
| `StripComposer.SlotsInsideCanvas` | app/page.tsx:78-100 | every destination rectangle lies on the 400 × height canvas with at least a 24-pixel border on every side |
| `StripComposer.SlotsStacked` | app/page.tsx:92-104 | slot `k + 1` has the same x as slot `k` and starts exactly one margin below its bottom |
| `StripComposer.SlotsDisjoint` | app/page.tsx:98 | any later slot starts at least a margin below the bottom of an earlier one, so no two photos overlap |
| `StripComposer.DrawsFollowImages` | app/page.tsx:92-104 | there is one draw per input image, in index order; each crop lies inside its image and has the slot's 352:440 aspect ratio, so no photo is distorted |
| `CaptureSequencer.SessionLength` | app/page.tsx:36-47 | a session of `n` shots takes `10 n` steps: 8 ticks, one capture, one settle pause per shot |
| `CaptureSequencer.SessionEventAt` | app/page.tsx:36-47 | step `p` of a session is step `p % 10` of shot `p / 10`: the shots run one after another, each in full |
| `CaptureSequencer.ShootAfterCountdown` | app/page.tsx:37-45 | every capture happens with the number blanked and immediately after the eight ticks showing 8, 7, …, 1 |
| `CaptureSequencer.SessionStaysInCountdown` | app/page.tsx:32-47 | while shots are being taken the page is in the countdown phase and no strip is shown |
| `CaptureSequencer.ShotsInOrder` | app/page.tsx:36-47 | the captures of an `n`-shot session are shots `0, 1, …, n - 1`, each exactly once and in that order |
| `CaptureSequencer.Booth.constructor` | app/page.tsx:10-14 | the page starts idle, without count or strip, and with the camera not ready |
| `CaptureSequencer.Booth.CameraAttached` | app/page.tsx:20-24 | attaching the stream sets `cameraReady` and nothing else; START is then offered exactly when the page is idle |
| `CaptureSequencer.Booth.StartSequence` | app/page.tsx:31-52 | the trace grows by exactly the four-shot session; the page ends in `result` with count null and the strip `Layout` of the four captures (height 1880); `cameraReady` is unchanged |
| `CaptureSequencer.Booth.Reset` | app/page.tsx:139-143 | strip and count become null and the phase idle; `cameraReady` and the trace are unchanged; START is offered exactly when the camera is ready (the guard at line 171) |

## Left out

- Camera acquisition (`getUserMedia`) and the alert when permission is refused are browser I/O. Only the state update on success (`setCameraReady(true)`) is modelled, as `CameraAttached`.
- Pixel work is foreign canvas calls: `capture()`'s filter string and `drawImage`, the black `fillRect` background, and `toDataURL`. A still is an opaque token with its size. The strip is its list of draw commands rather than an encoded image.
- `wait`/`setTimeout` and the image-load promises are asynchronous scheduling. They are steps in the trace, not time. React's batching of state updates is not modelled. The trace records the state the page shows at each wait.
- The trace has no steps for the image loads inside `buildStrip`. While those loads run, the page remains in the countdown with no number.
- `StripComposer.BuildStrip`: requires every still to have positive width and height. A zero-size capture would never load, so the source's draw promise would never settle and the session would not finish. That hang is not modelled.
- `CoverCrop.Cover`: exact rational arithmetic. It does not model IEEE-754 rounding of the ratios, of the ratio comparison, or of the crop coordinates.
- Methods are atomic. A second `startSequence` running alongside the first, or `reset` during a session, is not modelled. The page never offers those buttons at those times: START only when idle, RESTART only in the result.
- `printStrip` (`window.print`), the JSX rendering and the download link are UI.
