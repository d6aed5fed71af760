# Models of the algorithms carried by a ports tree

Most of the tree is packaging. A few files in it are whole programs, or patches that add one, and
this project models those and proves what they are for. Each module follows one component.

| modules | component |
|---|---|
| HidProtocol, HidReports | the libusb back end of hidapi: transfer callback, read thread, readers and closer over a mutex, a condition variable and a bounded queue |
| SvgPath, SvgDraws, SvgLexer, SvgTokens, SvgPathParser | nanosvg's path data: command machine and what it draws, lexer and printed text, growable point buffer |
| SvgOutlines, SvgShapes, SvgPoints | the outlines of its other shapes, and the texts of polylines |
| SvgBounds, SvgGaps, SvgBoxes, SvgImage, SvgGeometry | bounding boxes of curves, paths, shapes and the image, and the view box |
| SvgTransform, SvgTransformText, SvgElements | matrices, transform attributes and the attribute stack of nested elements |
| SvgXml, SvgXmlTokenizer, Scanning | the XML tokenizer, as a function and as it cuts its buffer in place |
| DependencyChain | chkdepschain.py: cached transitive closures of port dependencies |
| SanitizePath, PathText | unarj's path sanitizer in a bounded buffer |
| RelocatePhdrs | the script that moves an ELF program header table into the first page |
| PatchTool | patchtool.py: relative paths and patch names |
| Unmakeself | unmakeself: where the archive starts in a self-extracting script |
| WatcherPoll, WatcherSnapshot | the directory poller and the asynchronous snapshot poller of the opencode watcher patch |
| BlockSize, RingPointer | buffer sizing and position keeping in two ALSA-OSS plugins, and the FAudio rounding patch |
| Common | shared types |

Code that changes state is a class or a method over arrays and is proved against a function; the
properties are then proved about that function. `dafny verify dfyconfig.toml` checks everything.

## How things are modelled

- Memory that C leaves uninitialised is a parameter (`leftover`, `was` in `SvgTransformText`).
- Floats are `real`. Square root, `atof` and the cubics of an arc are parameters, so results hold for
  any square root function with `sqrt(x)^2 == x` and any arc geometry.
- Threads, native calls and device events are steps of a state machine; every interleaving is a run.
  A run of the HID model may contain any number of readers, time-outs, wake-ups without a signal,
  unplugging, and transfers that complete although a cancel was requested.
- A file that is read in pieces is the list of what the reads returned; what `make` and the file
  system say about ports is a parameter; a device answer is a parameter that may be a failure.
- 32-bit words in `BlockSize` are bit vectors, with wrap-around; path strings and XML input are
  sequences or arrays of characters ended by NUL where the C code relies on it.

## Where the code does not do what it promises

Each of these is proved on a concrete run or for every input; the members named with `Iff` give the exact
condition under which the promise holds, and `Safety` shows that one reader never misses a wake-up.

- hid.c: a comment says that the queue stops at 30; the code keeps 32. `read_thread` ignores the result
  of its first submission: if that fails, `hid_close` never returns (`HangsForever`). Even when every
  submission succeeds both cancel requests can be lost (`CancelCanBeLost`, `CloseCanFinishIff`). A
  wake-up can be lost exactly when there are two readers or more (`CanGetStuckIff`), because a signal is
  sent only when the queue was empty, and the reader then sleeps on (`LostWakeupLasts`).
- nanosvg bounds: a slope coefficient below 1e-12 but not zero makes `nsvg__curveBounds` skip a turning
  point (`GapLosesCurve`). The range is still right exactly when the curve comes back to that height
  by an end (`RangeHoldsIff`, `BoxHoldsSegmentIff`).
- nanosvg XML: `<g/>` is an element named `g/` that never ends: without a blank the slash
  is seen only after an attribute (`TightSlashEndsIff`). An empty element with
  127 attributes or more loses its end event, and no element keeps more than 127 (`ElementRoundTripIff`).
- nanosvg elements: `svg`, gradients and stops apply their transform to the top of the stack without a
  push, gradients and stops inside `<defs>` too, so it stays for all that follows on their level
  (`TopAfter`). `</g>` inside `<defs>` pops although `<g>` there did not push (`GroupsInDefsPop`), an inner
  `</defs>` ends the outer one, so what follows in that is drawn (`DefsHideIff`, `NestedDefsDraw`), and at
  the full stack a group or a shape transforms its parent and pops it (`SaturatedGroup`, `SaturatedShape`).
  `HeadRestoredIff` and `StackRestoredIff` say when the stack comes back all the same, `AncestorsIff` when
  every shape has the transforms of its ancestors.
- nanosvg matrices: `nsvg__xformInverse` of a near-singular matrix overwrites its input and leaves its
  output as it was (`XformInverse`); a matrix multiplied with itself in place gives its square only where
  `SquaredIff` says so.
- nanosvg shapes: a blank or a comma at the end of `points` counts as one more number
  (`TrailingAddsNumber`), which adds a vertex exactly after an odd number of items (`PolyIsMeantIff`).
- nanosvg transforms: `matrix(...)` with fewer than six numbers applies the entry before it again, or
  uninitialised memory if there is none, and `translate()` and `scale()` read uninitialised arguments
  (`ShortMatrixRepeats`, `DefinedIff`). An entry with too many numbers is dropped (`TooManyIgnored`).
- nanosvg paths: `S` after a quadratic and `T` after a cubic mirror its control point, where SVG 1.1 begins
  at the current point (`SmoothCubicMeantIff`, `SmoothQuadraticMeantIff`). The branch that would move the
  current point for a number after `Z` is dead (`NumberAfterClose`).
- chkdepschain.py: the recursion ends exactly on acyclic dependencies (`TerminatesIffAcyclic`); a list can
  name a port twice where LIB and RUN do (`ListedOnceIff`).
- sanitize.c: truncation can leave `..` as a component (`ClimbsOutIff`, `TruncationClimbsOut`).
- patchtool.py: `getrelpath` returns only where wrksrc has one leading slash and a component, or path has
  two and wrksrc is `/` or has two and a component; for wrksrc `/` under an ordinary path it loops forever
  (`LoopEndsIff`). Where only path has two slashes the result misses it (`RootsApart`). The comment on
  `makepatchname` claims a 1-to-1 mapping; it is one exactly where no two of `_` and `/` are adjacent
  (`UniqueNameIff`).
- unmakeself: a magic number split between two reads is missed (`SplitMagicIsMissed`, `FoundIsFirstIff`);
  the fallback scan does not depend on the reads (`ScanResultIsUnique`).
- opencode watcher: changes between the two native calls of a tick are lost for good
  (`CycleLosesNothingIff`, and over every run `LostExactly`), and a tick in flight can publish its batch
  and put the snapshot file back after unsubscribing (`LateBatchIff`, `FileComesBackIff`).
- linux-c7 plugin: whole device buffers that go by between two calls are not seen, so the position
  is right only where they add up to a multiple of the software buffer (`FollowIsAdvanceIff`).
  `oss_pointer` returns 0 for every state but running before it tests for an xrun, so the xrun test cannot
  succeed (`Oss.PointerByCounter`, `Oss.PointerBySpace`).
- alsa-plugins: below 125 Hz the size to round is 0, no logarithm is found and the shift is 24 (`HwParams`).
- FAudio: 0 and anything above 32768 round to 0 (`SmearRoundsUpIff`).

## Model

| member | source | states |
|---|---|---|
| HidProtocol.Safety | cad/PrusaSlicer/files/patch-src_hidapi_libusb_hid.c:735-870 | in every state of every interleaving, first submission successful or not: a cancelled device is shut down with no transfer in flight and no callback running; a freed transfer is idle and its thread is done; nobody uses a transfer that is not live; nobody sleeps once the thread is done; reports taken plus the queue are the reports received, and the queue holds at most 32; a lone reader never sleeps beside a report |
| HidProtocol.InvStep | cad/PrusaSlicer/files/patch-src_hidapi_libusb_hid.c:735-870 | the invariant behind it (who holds the mutex, life of the transfer, sleepers, conservation of reports) is kept by every step of every thread |
| HidProtocol.InvRun | cad/PrusaSlicer/files/patch-src_hidapi_libusb_hid.c:735-870 | and so by every run |
| HidProtocol.AttachConserves | cad/PrusaSlicer/files/patch-src_hidapi_libusb_hid.c:750-772 | appending a report, and dropping the oldest when the queue is full, loses no other report |
| HidProtocol.SignalReachesLoneReader | cad/PrusaSlicer/files/patch-src_hidapi_libusb_hid.c:751-755 | a signal sent on the change from empty to non-empty wakes the only reader |
| HidProtocol.CloseCanFinishIff | cad/PrusaSlicer/files/patch-src_hidapi_libusb_hid.c:1238-1268 | from a reachable state hid_close can run to its end if and only if the first submission succeeded and no cancellation has been lost |
| HidProtocol.TowardProgresses | cad/PrusaSlicer/files/patch-src_hidapi_libusb_hid.c:843-859 | while close can still end there is always an enabled step that brings it nearer, by a rank that decreases |
| HidProtocol.FinishingRun | cad/PrusaSlicer/files/patch-src_hidapi_libusb_hid.c:1238-1268 | a run from such a state to the end of hid_close, built step by step |
| HidProtocol.HangsForever | cad/PrusaSlicer/files/patch-src_hidapi_libusb_hid.c:820-850 | hid_close never ends: after a failed first submission in any run, unplugged or not, and after a lost cancellation in any run in which the device stays attached |
| HidProtocol.CancelCanBeLost | cad/PrusaSlicer/files/patch-src_hidapi_libusb_hid.c:843-850 | a run in which both cancel requests are lost, although every submission succeeded |
| HidProtocol.BlockingReadResult | cad/PrusaSlicer/files/patch-src_hidapi_libusb_hid.c:1094-1117 | a blocking read returns -1 only after a shutdown; otherwise the last report handed over went to this reader, and the result is the length copied from it, so 0 only for an empty report or a buffer without room |
| HidProtocol.ReadResult | cad/PrusaSlicer/files/patch-src_hidapi_libusb_hid.c:1082-1165 | hid_read_timeout in every run, for any call: a reader about to return does so from the state of its last step, for the call it made; a wait that timed out gives 0, one that failed -1; otherwise a report in the queue is handed over, a shutdown gives -1, and only a call that does not wait finds neither and gives 0 |
| HidProtocol.CallRun | cad/PrusaSlicer/files/patch-src_hidapi_libusb_hid.c:1094-1155 | the invariant behind it: what every program point of a read tells about the call and the last wait, read off the steps |
| HidProtocol.NothingSentIsMissed | cad/PrusaSlicer/files/patch-src_hidapi_libusb_hid.c:735-775 | in every run the reports with which transfers completed are, in order, those taken off the queue, those in it and the one in the callback's hand |
| HidProtocol.CloseLeavesNothing | cad/PrusaSlicer/files/patch-src_hidapi_libusb_hid.c:1255-1266 | in every run no report is left once hid_close has let go of the mutex |
| HidProtocol.CanGetStuckIff | cad/PrusaSlicer/files/patch-src_hidapi_libusb_hid.c:735-773 | some run leaves a reader asleep beside a report with everybody else idle if and only if there are two readers or more |
| HidProtocol.TwoReadersLoseWakeup | cad/PrusaSlicer/files/patch-src_hidapi_libusb_hid.c:751-755 | for any two readers among any number and any two reports, a run without unplugging that leaves one of them asleep beside the second report while everybody else is idle |
| HidProtocol.LostWakeupLasts | cad/PrusaSlicer/files/patch-src_hidapi_libusb_hid.c:751-772 | from there that reader sleeps on through every run without a spurious wake-up, a step of another reader or the final broadcast, however many reports arrive |
| HidReports.EnqueueConserves | cad/PrusaSlicer/files/patch-src_hidapi_libusb_hid.c:757-772 | the dropped report followed by the new queue is the old queue and the new report; 32 is never exceeded |
| HidReports.HidDevice.ReturnData | cad/PrusaSlicer/files/patch-src_hidapi_libusb_hid.c:1058-1070 | copies the first min(length, report length) bytes of the oldest report, leaves the rest of the buffer, and unlinks exactly that report |
| HidReports.HidDevice.AttachReport | cad/PrusaSlicer/files/patch-src_hidapi_libusb_hid.c:748-773 | the linked-list append with the overflow pop is the queue function, and it signals if and only if the queue was empty |
| HidReports.HidDevice.ClearReports | cad/PrusaSlicer/files/patch-src_hidapi_libusb_hid.c:1260-1266 | closing discards all reports, oldest first |
| SvgBounds.Simpson | cad/PrusaSlicer/files/patch-src_libnanosvg_nanosvg.h:563-567 | the difference of the curve at two parameters is given exactly by three values of its slope |
| SvgBounds.ExtremaAtTurns | cad/PrusaSlicer/files/patch-src_libnanosvg_nanosvg.h:569-618 | a cubic stays in a range for all t in [0,1] if and only if its ends and its interior turning points do |
| SvgBounds.RangeIsTight | cad/PrusaSlicer/files/patch-src_libnanosvg_nanosvg.h:578-616 | the curve reaches both bounds of the computed range, whatever the epsilon tests do |
| SvgBounds.RangeHoldsCurve | cad/PrusaSlicer/files/patch-src_libnanosvg_nanosvg.h:589-617 | outside the gaps of the epsilon tests the computed range holds the whole curve |
| SvgBounds.GapLosesCurve | cad/PrusaSlicer/files/patch-src_libnanosvg_nanosvg.h:595-611 | a curve inside such a gap that leaves its computed range |
| SvgGaps.RangeHoldsIff | cad/PrusaSlicer/files/patch-src_libnanosvg_nanosvg.h:569-618 | the computed range holds the whole curve if and only if every turning point the tests skip is one at which the curve comes back to that height by an end, a condition on the coefficients of the slope |
| SvgGaps.TurnCoveredIff | cad/PrusaSlicer/files/patch-src_libnanosvg_nanosvg.h:589-617 | a simple turning point is covered by the ends and any samples if and only if it is itself a sample or the curve comes back to its height: no other sample helps |
| SvgGaps.NoGapIsHarmless | cad/PrusaSlicer/files/patch-src_libnanosvg_nanosvg.h:589-617 | outside the gaps of the epsilon tests that condition always holds |
| SvgBoxes.ConvexHull | cad/PrusaSlicer/files/patch-src_libnanosvg_nanosvg.h:584-587 | a curve stays in any range that holds its four control values: the early return is right |
| SvgBoxes.BoxHoldsSegment | cad/PrusaSlicer/files/patch-src_libnanosvg_nanosvg.h:569-618 | every point of a trusted segment (shortcut, or nothing skipped that matters) lies in the box computed for it |
| SvgBoxes.BoxHoldsSegmentIff | cad/PrusaSlicer/files/patch-src_libnanosvg_nanosvg.h:569-618 | the box holds every point of the segment if and only if the segment is trusted |
| SvgBoxes.BoxIsTight | cad/PrusaSlicer/files/patch-src_libnanosvg_nanosvg.h:569-618 | each side of the box is touched by the segment |
| SvgBoxes.HullIsLeast | cad/PrusaSlicer/files/patch-src_libnanosvg_nanosvg.h:982-992 | the min/max fold is the least box that contains every member |
| SvgBoxes.ImageHoldsCurvesIff | cad/PrusaSlicer/files/patch-src_libnanosvg_nanosvg.h:1063-1078 | the bounds of its path, of its shape and of the image hold a segment if and only if its own box does or its turning points lie in them |
| SvgBoxes.ImageHoldsCurves | cad/PrusaSlicer/files/patch-src_libnanosvg_nanosvg.h:1063-1078 | every point of every trusted segment lies in the bounds of its path, its shape and the image |
| SvgBoxes.AffineCommutes | cad/PrusaSlicer/files/patch-src_libnanosvg_nanosvg.h:1059-1061 | transforming the control points transforms every point of the curve |
| SvgBoxes.ViewKeepsContainmentIff | cad/PrusaSlicer/files/patch-src_libnanosvg_nanosvg.h:2936-2955 | mapping a box corner by corner keeps its points inside if and only if no scale is negative on an axis on which the box has some extent |
| SvgBoxes.ScaledImageHoldsCurves | cad/PrusaSlicer/files/patch-src_libnanosvg_nanosvg.h:2940-2955 | after scaling, every trusted curve still lies in the scaled bounds of its path and shape |
| SvgBoxes.MeetFits | cad/PrusaSlicer/files/patch-src_libnanosvg_nanosvg.h:2924-2928 | "meet" with any alignment puts the whole view box inside the image |
| SvgBoxes.SliceCovers | cad/PrusaSlicer/files/patch-src_libnanosvg_nanosvg.h:2929-2934 | "slice" with any alignment covers the whole image |
| SvgBoxes.ViewAligns | cad/PrusaSlicer/files/patch-src_libnanosvg_nanosvg.h:2864-2934 | "meet" and "slice" scale both axes alike, put the view box at the low end, at the high end or with equal gaps as they are told, and fill the image on one axis |
| SvgBoxes.ViewStretches | cad/PrusaSlicer/files/patch-src_libnanosvg_nanosvg.h:2912-2922 | without an alignment the view box is stretched to the image |
| SvgImage.ShapeBox | cad/PrusaSlicer/files/patch-src_libnanosvg_nanosvg.h:982-992 | the loop over the paths computes the fold of their bounds |
| SvgImage.ImageBounds | cad/PrusaSlicer/files/patch-src_libnanosvg_nanosvg.h:2844-2862 | the loop over the shapes computes the fold of their bounds, and zeros for an empty image |
| SvgImage.ScalePoints | cad/PrusaSlicer/files/patch-src_libnanosvg_nanosvg.h:2950-2954 | scales every point of a path in place |
| SvgImage.ScaledPathHoldsCurves | cad/PrusaSlicer/files/patch-src_libnanosvg_nanosvg.h:2945-2955 | the curves through the scaled points are the images of the old ones and lie in the scaled bounds |
| SvgPath.AbsoluteFormDrawsSame | cad/PrusaSlicer/files/patch-src_libnanosvg_nanosvg.h:2300-2408 | for every sequence of items, well formed or not, rewriting relative commands to absolute ones stores the same paths and leaves the same pending points, current point and control point (SVG 1.1 section 8.3) |
| SvgPath.AbsoluteFormIsAbsolute | cad/PrusaSlicer/files/patch-src_libnanosvg_nanosvg.h:2300-2408 | the rewritten form has no relative command |
| SvgPath.FireAgrees | cad/PrusaSlicer/files/patch-src_libnanosvg_nanosvg.h:1961-2127 | one relative command draws what its absolute form draws |
| SvgPath.FeedNumbers | cad/PrusaSlicer/files/patch-src_libnanosvg_nanosvg.h:2307-2367 | reading exactly the arguments a command awaits fires it once |
| SvgPath.PathsAreWellFormed | cad/PrusaSlicer/files/patch-src_libnanosvg_nanosvg.h:1040-1048 | for every item sequence each stored path has 1 + 3n points, n at least 1, and its own bounding box; at most six arguments wait; and the final commit stores a path if and only if it has a segment |
| SvgPath.StepKeeps | cad/PrusaSlicer/files/patch-src_libnanosvg_nanosvg.h:2300-2405 | the state invariant is kept by every item |
| SvgPath.CommitStores | cad/PrusaSlicer/files/patch-src_libnanosvg_nanosvg.h:1032-1048 | the modulo-3 guard never discards a path that has a segment |
| SvgPath.NumberAfterClose | cad/PrusaSlicer/files/patch-src_libnanosvg_nanosvg.h:2358-2364 | a number after closepath changes nothing: the default branch never moves the current point |
| SvgDraws.LineDraws | cad/PrusaSlicer/files/patch-src_libnanosvg_nanosvg.h:1973-2001 | l, L, h, H, v and V draw the straight line from the current point to the given place, at constant speed |
| SvgDraws.CubicDraws | cad/PrusaSlicer/files/patch-src_libnanosvg_nanosvg.h:2003-2030 | c and C draw the cubic with the given control points and end |
| SvgDraws.SmoothCubicDraws | cad/PrusaSlicer/files/patch-src_libnanosvg_nanosvg.h:2032-2060 | s and S begin with the control point that has the current point in the middle between it and the last one (SVG 1.1 section 8.3.6) |
| SvgDraws.QuadraticDraws | cad/PrusaSlicer/files/patch-src_libnanosvg_nanosvg.h:2062-2094 | the cubic that q and Q add is, for every parameter, the given quadratic |
| SvgDraws.SmoothQuadraticDraws | cad/PrusaSlicer/files/patch-src_libnanosvg_nanosvg.h:2096-2127 | and that of t and T the quadratic whose control point mirrors the last one (SVG 1.1 section 8.3.7) |
| SvgDraws.ArcDraws | cad/PrusaSlicer/files/patch-src_libnanosvg_nanosvg.h:2145-2264 | a and A take radii without sign and flags as zero or not, and draw the given pieces, or a line when the chord or a radius vanishes |
| SvgDraws.MoveDraws | cad/PrusaSlicer/files/patch-src_libnanosvg_nanosvg.h:1961-1973 | m and M begin an outline, and what follows are lines of the same kind |
| SvgDraws.CloseDraws | cad/PrusaSlicer/files/patch-src_libnanosvg_nanosvg.h:2382-2398 | z stores the outline closed and begins the next one at its first point |
| SvgDraws.LettersKeep | cad/PrusaSlicer/files/patch-src_libnanosvg_nanosvg.h:2368-2404 | m and M store the outline before them; other letters leave it as it is |
| SvgDraws.NumberDraws | cad/PrusaSlicer/files/patch-src_libnanosvg_nanosvg.h:2307-2310 | a number is kept until the command has the arguments SVG gives it; then the command draws and begins anew |
| SvgDraws.RunKeepsTip | cad/PrusaSlicer/files/patch-src_libnanosvg_nanosvg.h:2292-2409 | in every run whose arcs end where they should, the outline ends at the current point, so each command draws from there |
| SvgDraws.StoredIsImage | cad/PrusaSlicer/files/patch-src_libnanosvg_nanosvg.h:1040-1061 | every point of a stored path is the image of the point drawn, segment by segment, with a line back to the start if it is closed |
| SvgDraws.SmoothCubicMeantIff | cad/PrusaSlicer/files/patch-src_libnanosvg_nanosvg.h:2032-2060 | after any command S begins as SVG 1.1 section 8.3.6 says if and only if that command was no quadratic, or its control point is its end |
| SvgDraws.SmoothQuadraticMeantIff | cad/PrusaSlicer/files/patch-src_libnanosvg_nanosvg.h:2096-2127 | and T as section 8.3.7 says if and only if it was no cubic, or its control point is its end |
| SvgTokens.NumeralEnds | cad/PrusaSlicer/files/patch-src_libnanosvg_nanosvg.h:1160-1201 | a number by the grammar of SVG 1.1 section 8.3.9 is read whole, and no more, whatever stands behind it that cannot continue it |
| SvgTokens.LongNumeralCut | cad/PrusaSlicer/files/patch-src_libnanosvg_nanosvg.h:1160-1201 | of a longer number the first 63 characters are kept and all are passed over |
| SvgTokens.TokensRead | cad/PrusaSlicer/files/patch-src_libnanosvg_nanosvg.h:1203-1234 | printed path data is cut into exactly its letters, numbers and arc flags, whatever blanks and commas separate them and wherever they can do without |
| SvgTokens.PrintedPathDraws | cad/PrusaSlicer/files/patch-src_libnanosvg_nanosvg.h:2292-2409 | so a printed path draws what its tokens mean |
| SvgTokens.NumeralIsNumber | cad/PrusaSlicer/files/patch-src_libnanosvg_nanosvg.h:1550-1576 | the numbers of transform attributes cover the same grammar |
| SvgLexer.NextPathItem | cad/PrusaSlicer/files/patch-src_libnanosvg_nanosvg.h:1216-1232 | an item is found if and only if something but separators is left, and it consumes input |
| SvgLexer.NextArcFlag | cad/PrusaSlicer/files/patch-src_libnanosvg_nanosvg.h:1203-1214 | an arc flag consumes input when it is found |
| SvgLexer.ParseIsRunOfItems | cad/PrusaSlicer/files/patch-src_libnanosvg_nanosvg.h:2300-2405 | parsing a text is running the machine over the items cut from it |
| SvgLexer.IdleNumber | cad/PrusaSlicer/files/patch-src_libnanosvg_nanosvg.h:2368-2404 | with no command pending a number acts like an unknown letter and is ignored |
| SvgLexer.TextDrawsLikeAbsoluteForm | cad/PrusaSlicer/files/patch-src_libnanosvg_nanosvg.h:2266-2412 | any text draws what the absolute form of its items draws, and stores only well-formed paths |
| SvgPathParser.Parser.AddPoint | cad/PrusaSlicer/files/patch-src_libnanosvg_nanosvg.h:702-712 | appends to the point buffer, which doubles from eight when full and keeps its points |
| SvgPathParser.Parser.MoveTo | cad/PrusaSlicer/files/patch-src_libnanosvg_nanosvg.h:714-722 | replaces the last point, or adds the first |
| SvgPathParser.Parser.LineTo | cad/PrusaSlicer/files/patch-src_libnanosvg_nanosvg.h:724-736 | appends the line as a cubic with controls at one and two thirds |
| SvgPathParser.Parser.CubicBezTo | cad/PrusaSlicer/files/patch-src_libnanosvg_nanosvg.h:738-745 | appends the cubic, if there is a point to start from |
| SvgPathParser.Parser.BendTo | cad/PrusaSlicer/files/patch-src_libnanosvg_nanosvg.h:2248-2260 | the arc loop appends one cubic for each piece |
| SvgPathParser.Parser.AddPath | cad/PrusaSlicer/files/patch-src_libnanosvg_nanosvg.h:1032-1083 | stores the pending points, closed if asked, transformed and with their bounds |
| SvgPathParser.Parser.FindBounds | cad/PrusaSlicer/files/patch-src_libnanosvg_nanosvg.h:1063-1078 | the loop over segments computes the path's box |
| SvgPathParser.Parser.CurveBounds | cad/PrusaSlicer/files/patch-src_libnanosvg_nanosvg.h:569-618 | the imperative bounds computation is the segment box |
| SvgPathParser.Parser.PathCubicBezTo | cad/PrusaSlicer/files/patch-src_libnanosvg_nanosvg.h:2003-2030 | draws and updates the current and control points, relative or not |
| SvgPathParser.Parser.PathCubicBezShortTo | cad/PrusaSlicer/files/patch-src_libnanosvg_nanosvg.h:2032-2060 | the same with a reflected first control point |
| SvgPathParser.Parser.PathQuadBezTo | cad/PrusaSlicer/files/patch-src_libnanosvg_nanosvg.h:2062-2094 | a quadratic raised to a cubic |
| SvgPathParser.Parser.PathQuadBezShortTo | cad/PrusaSlicer/files/patch-src_libnanosvg_nanosvg.h:2096-2127 | the same with a reflected control point |
| SvgPathParser.Parser.PathArcTo | cad/PrusaSlicer/files/patch-src_libnanosvg_nanosvg.h:2145-2264 | an arc: a line when degenerate, else the given cubics; the current point moves to the end |
| SvgPathParser.Parser.Draw | cad/PrusaSlicer/files/patch-src_libnanosvg_nanosvg.h:2311-2365 | the switch over complete commands is the firing function |
| SvgPathParser.Parser.Letter | cad/PrusaSlicer/files/patch-src_libnanosvg_nanosvg.h:2368-2404 | the branch for letters is the command step |
| SvgPathParser.Parser.Argument | cad/PrusaSlicer/files/patch-src_libnanosvg_nanosvg.h:2307-2367 | the branch for numbers is the number step, in an array of ten |
| SvgPathParser.Parser.Take | cad/PrusaSlicer/files/patch-src_libnanosvg_nanosvg.h:2307-2404 | one round of the loop is one step of the machine |
| SvgPathParser.Parser.ParsePath | cad/PrusaSlicer/files/patch-src_libnanosvg_nanosvg.h:2292-2409 | the whole loop, over the mutable buffer, stores exactly the paths of the functional parser and consumes its input |
| SvgGeometry.ThenComposes | cad/PrusaSlicer/files/patch-src_libnanosvg_nanosvg.h:506-547 | the product of two matrices maps a point by one and then the other |
| SvgTransform.ThenAssociates | cad/PrusaSlicer/files/patch-src_libnanosvg_nanosvg.h:506-517 | the product is associative |
| SvgTransform.InverseUndoes | cad/PrusaSlicer/files/patch-src_libnanosvg_nanosvg.h:519-533 | over the reals the inverse undoes any nonsingular transform on either side |
| SvgTransform.XformMultiply | cad/PrusaSlicer/files/patch-src_libnanosvg_nanosvg.h:506-517 | the in-place product, with entries overwritten while others are still needed, is the product of two different matrices; of a matrix with itself it is what the overwriting makes of it |
| SvgTransform.SquaredIff | cad/PrusaSlicer/files/patch-src_libnanosvg_nanosvg.h:506-517 | a matrix multiplied with itself in place gives its square if and only if what the overwriting adds to the second row vanishes |
| SvgTransform.XformPremultiply | cad/PrusaSlicer/files/patch-src_libnanosvg_nanosvg.h:535-541 | the in-place product on the other side, for any two matrices |
| SvgTransform.XformInverse | cad/PrusaSlicer/files/patch-src_libnanosvg_nanosvg.h:519-533 | writes an inverse that undoes the input; near-singular input is overwritten by the identity and the output left alone; with one matrix for both, the entries that result |
| SvgTransform.ComposeMaps | cad/PrusaSlicer/files/patch-src_libnanosvg_nanosvg.h:1665-1697 | a transform list maps a point by its last entry first (SVG 1.1 section 7.6) |
| SvgTransform.ComposeAppend | cad/PrusaSlicer/files/patch-src_libnanosvg_nanosvg.h:1665-1697 | a list is the nesting of its two parts |
| SvgTransformText.ListRoundTrip | cad/PrusaSlicer/files/patch-src_libnanosvg_nanosvg.h:1665-1697 | a list of entries in any layout of blanks and commas is read back as the composition of their matrices, whatever uninitialised memory holds |
| SvgTransformText.PrintedAttribute | cad/PrusaSlicer/files/patch-src_libnanosvg_nanosvg.h:1665-1697 | so an attribute in any layout means that composition, and maps a point by its last entry first |
| SvgTransformText.ParsePrinted | cad/PrusaSlicer/files/patch-src_libnanosvg_nanosvg.h:1665-1697 | an entry of any kind and any number of arguments applies the matrix that its text and the memory give |
| SvgTransformText.EntryTakes | cad/PrusaSlicer/files/patch-src_libnanosvg_nanosvg.h:1579-1663 | where an entry takes every point, in coordinates and by the letters of its name: matrix, translate and scale with one number or two, rotate about the origin or a point, skewX, skewY (SVG 1.1 section 7.6) |
| SvgTransformText.TooManyIgnored | cad/PrusaSlicer/files/patch-src_libnanosvg_nanosvg.h:1565-1572 | an entry with more numbers than its kind has is not applied, and what it read stays behind |
| SvgTransformText.ArgsOfPrinted | cad/PrusaSlicer/files/patch-src_libnanosvg_nanosvg.h:1550-1576 | the arguments of a printed entry are read back whole, and the text advances to its closing parenthesis |
| SvgTransformText.DefinedIff | cad/PrusaSlicer/files/patch-src_libnanosvg_nanosvg.h:1579-1612 | for every kind of entry, the result depends on nothing but the text if and only if there are enough arguments or the missing ones cancel out |
| SvgTransformText.ShortMatrixRepeats | cad/PrusaSlicer/files/patch-src_libnanosvg_nanosvg.h:1579-1587 | a matrix entry with fewer than six numbers applies the matrix of the entry before it once more |
| SvgTransformText.ParseTransformArgs | cad/PrusaSlicer/files/patch-src_libnanosvg_nanosvg.h:1550-1576 | fills the first slots with the numbers between the parentheses, leaves the others, and reports too many by 0 |
| SvgTransformText.ParseEntry | cad/PrusaSlicer/files/patch-src_libnanosvg_nanosvg.h:1579-1663 | the matrix of one entry, in place, from its text and what memory held, each kind as EntryTakes says |
| SvgTransformText.ParseRotate | cad/PrusaSlicer/files/patch-src_libnanosvg_nanosvg.h:1636-1663 | a rotation about a point, which leaves that point where it is for any sine and cosine; about the origin when none is given |
| SvgTransformText.AboutFixes | cad/PrusaSlicer/files/patch-src_libnanosvg_nanosvg.h:1636-1663 | translating back, rotating and translating again fixes the point |
| SvgTransformText.ParseTransform | cad/PrusaSlicer/files/patch-src_libnanosvg_nanosvg.h:1665-1697 | the loop over the text, with its two in-place matrices, is the functional parser; it ends on every text |
| SvgOutlines.OutlineMaps | cad/PrusaSlicer/files/patch-src_libnanosvg_nanosvg.h:1059-1061 | any transform takes an outline of lines to the outline through the images of its vertices, thirds included |
| SvgOutlines.TameMaps | cad/PrusaSlicer/files/patch-src_libnanosvg_nanosvg.h:1059-1061 | an axis-parallel transform, a mirroring or a quarter turn too, keeps the control points of every segment between its ends and maps the box of the outline corner by corner |
| SvgOutlines.TameBox | cad/PrusaSlicer/files/patch-src_libnanosvg_nanosvg.h:1063-1078 | the box folded from the segments of such an outline is the box of its points between segments |
| SvgShapes.EllipseStored | cad/PrusaSlicer/files/patch-src_libnanosvg_nanosvg.h:2484-2496 | an ellipse with positive radii adds exactly one closed path of 16 points under any transform; under an axis-parallel one its stored box is exactly the image of the box of its radii |
| SvgShapes.EllipseIsRound | cad/PrusaSlicer/files/patch-src_libnanosvg_nanosvg.h:2484-2496 | every point of its four cubics, measured in the radii, is within 0.028 per cent of distance 1 from the centre |
| SvgShapes.RectStored | cad/PrusaSlicer/files/patch-src_libnanosvg_nanosvg.h:2435-2466 | a rectangle, sharp or rounded, adds exactly one closed path of 13 or 28 points; its stored box is the image of the rectangle under an axis-parallel transform, and for a sharp one the box of the images of the four corners under any transform, whatever the signs of width and height |
| SvgShapes.MissingRadius | cad/PrusaSlicer/files/patch-src_libnanosvg_nanosvg.h:2435-2440 | a corner radius that is not given is the other one, and both are capped by half the side |
| SvgShapes.ParseEllipse | cad/PrusaSlicer/files/patch-src_libnanosvg_nanosvg.h:2484-2496 | the calls on the mutable point buffer store that outline, or nothing for a radius that is not positive; a circle is the case of equal radii |
| SvgShapes.ParseRect | cad/PrusaSlicer/files/patch-src_libnanosvg_nanosvg.h:2423-2466 | the same for a rectangle, with the corner radii filled in from each other and capped |
| SvgPoints.TrailingAddsNumber | cad/PrusaSlicer/files/patch-src_libnanosvg_nanosvg.h:2574-2585 | the numbers read from any text are those of its items, and one more of no text if and only if a blank or a comma ends the text |
| SvgPoints.PolyIsMeantIff | cad/PrusaSlicer/files/patch-src_libnanosvg_nanosvg.h:2559-2593 | a polyline goes through exactly the vertices its texts mean if and only if no text has an odd number of items and ends with a blank or a comma |
| SvgPoints.MisreadAddsVertex | cad/PrusaSlicer/files/patch-src_libnanosvg_nanosvg.h:2574-2590 | every such text adds one vertex, over all "points" attributes of the element |
| SvgPoints.PolyIsOutline | cad/PrusaSlicer/files/patch-src_libnanosvg_nanosvg.h:2559-2593 | the points are the outline through the vertices, the pairs of each text with a number left over dropped |
| SvgPoints.PolyStored | cad/PrusaSlicer/files/patch-src_libnanosvg_nanosvg.h:2559-2593 | for all texts and any transform a path of 1 + 3n points is stored if and only if there are two vertices or more, and its stored box is the box of the images of the vertices |
| SvgPoints.ParseLine | cad/PrusaSlicer/files/patch-src_libnanosvg_nanosvg.h:2547-2556 | a line stores the outline through its two ends |
| SvgPoints.ParsePoly | cad/PrusaSlicer/files/patch-src_libnanosvg_nanosvg.h:2559-2593 | the loops over attributes and numbers store the polyline of the texts, and end on every text |
| SvgPoints.AddPoints | cad/PrusaSlicer/files/patch-src_libnanosvg_nanosvg.h:2574-2590 | the loop over one text adds its pairs to the buffer |
| SvgElements.HeadRestoredIff | cad/PrusaSlicer/files/patch-src_libnanosvg_nanosvg.h:2762-2835 | well-nested elements never raise the head of the stack, and bring it back if and only if it was at the bottom, or no group is met while the defs flag is set and every push finds room |
| SvgElements.StackRestoredIff | cad/PrusaSlicer/files/patch-src_libnanosvg_nanosvg.h:2762-2835 | the head and all slots up to it come back if and only if, above the bottom, that holds and the transforms left behind on the level change nothing, and at the bottom, those met while the head is there change nothing |
| SvgElements.BottomAfter | cad/PrusaSlicer/files/patch-src_libnanosvg_nanosvg.h:2762-2835 | over every run of callbacks, nested or not, the bottom slot is premultiplied by exactly the transforms of the svg elements and paint servers met while the head is there |
| SvgElements.TopAfter | cad/PrusaSlicer/files/patch-src_libnanosvg_nanosvg.h:2762-2835 | in a fine place (room for every push; no group while the flag is set, unless the head is at the bottom, where there is nothing to pop) the slots below the top are untouched and the top is premultiplied by exactly the transforms left behind |
| SvgElements.NestingStands | cad/PrusaSlicer/files/patch-src_libnanosvg_nanosvg.h:2762-2835 | there every shape drawn is stored with the composition of the list of transforms in force |
| SvgElements.ShapesMapThroughAncestors | cad/PrusaSlicer/files/patch-src_libnanosvg_nanosvg.h:2762-2835 | a stored shape maps a point by the innermost transform first and the outermost last, transforms leaked by svg elements and paint servers included |
| SvgElements.DefsHideIff | cad/PrusaSlicer/files/patch-src_libnanosvg_nanosvg.h:2766-2835 | in every document the shapes stored are as many as stand outside defs if and only if no shape that draws stands in defs after the end of an inner defs element; there are never fewer |
| SvgElements.AncestorsIff | cad/PrusaSlicer/files/patch-src_libnanosvg_nanosvg.h:2762-2835 | the lists are those of the ancestors of each shape outside defs (SVG 1.1 section 7.5) if and only if none escapes from defs in that way and none is met after a non-empty transform has leaked onto its level |
| SvgElements.DocumentNests | cad/PrusaSlicer/files/patch-src_libnanosvg_nanosvg.h:2762-2835 | the transforms stored for such a document in a fine place are the compositions of those ancestors' lists |
| SvgElements.SaturatedGroup | cad/PrusaSlicer/files/patch-src_libnanosvg_nanosvg.h:752-764 | at the full stack a group transforms its parent and its end tag pops the parent |
| SvgElements.SaturatedShape | cad/PrusaSlicer/files/patch-src_libnanosvg_nanosvg.h:752-764 | and so does a shape |
| SvgElements.NestedDefsDraw | cad/PrusaSlicer/files/patch-src_libnanosvg_nanosvg.h:2766-2835 | the shortest document with an escape: a shape after an inner defs element is drawn |
| SvgElements.GroupsInDefsPop | cad/PrusaSlicer/files/patch-src_libnanosvg_nanosvg.h:2766-2835 | n groups inside defs pop n levels, stopping at the bottom |
| SvgElements.ElementParser.PushAttr | cad/PrusaSlicer/files/patch-src_libnanosvg_nanosvg.h:752-758 | the array and its head after a push |
| SvgElements.ElementParser.PopAttr | cad/PrusaSlicer/files/patch-src_libnanosvg_nanosvg.h:760-764 | and after a pop |
| SvgElements.ElementParser.ParseTransform | cad/PrusaSlicer/files/patch-src_libnanosvg_nanosvg.h:1845-1847 | a transform attribute premultiplies the transform on top |
| SvgElements.ElementParser.Start | cad/PrusaSlicer/files/patch-src_libnanosvg_nanosvg.h:2762-2822 | the start callback is the handling function |
| SvgElements.ElementParser.End | cad/PrusaSlicer/files/patch-src_libnanosvg_nanosvg.h:2824-2835 | the end callback is the handling function |
| SvgXml.ElementRoundTripIff | cad/PrusaSlicer/files/patch-src_libnanosvg_nanosvg.h:256-330 | a printed tag reads back as itself if and only if its attributes fit: at most 127, and fewer for an empty element |
| SvgXml.ReadElement | cad/PrusaSlicer/files/patch-src_libnanosvg_nanosvg.h:256-330 | what any printed tag reads back as, fitting or not |
| SvgXml.ReadAttrs | cad/PrusaSlicer/files/patch-src_libnanosvg_nanosvg.h:288-319 | printed attributes read back in order, up to the limit, and the slash is seen only below it |
| SvgXml.ReadDocument | cad/PrusaSlicer/files/patch-src_libnanosvg_nanosvg.h:332-360 | a printed document reads back tag by tag |
| SvgXml.DocumentRoundTrip | cad/PrusaSlicer/files/patch-src_libnanosvg_nanosvg.h:332-360 | a printed document of fitting tags produces exactly its events |
| SvgXml.SlashJoinsName | cad/PrusaSlicer/files/patch-src_libnanosvg_nanosvg.h:283-286 | an empty element without attributes and without a blank before its slash takes the slash into its name and never ends |
| SvgXml.TightSlashEndsIff | cad/PrusaSlicer/files/patch-src_libnanosvg_nanosvg.h:283-319 | a slash with no blank in front of it ends the element if and only if there is an attribute before it and room for another |
| SvgXml.NoEvent | cad/PrusaSlicer/files/patch-src_libnanosvg_nanosvg.h:276-281 | comments, declarations and processing instructions make no event, and end at the first closing bracket |
| SvgXml.AnyQuoteReads | cad/PrusaSlicer/files/patch-src_libnanosvg_nanosvg.h:293-315 | an attribute is read in any layout, with either quote |
| SvgXml.UnquotedStops | cad/PrusaSlicer/files/patch-src_libnanosvg_nanosvg.h:299-305 | without a quote in the rest of the tag no more attributes are read, and no slash is seen |
| SvgXmlTokenizer.ParseXML | cad/PrusaSlicer/files/patch-src_libnanosvg_nanosvg.h:332-360 | the in-place tokenizer, over a NUL-terminated buffer it cuts up, makes exactly the callbacks of the functional reader |
| SvgXmlTokenizer.ParseElement | cad/PrusaSlicer/files/patch-src_libnanosvg_nanosvg.h:256-330 | the same for one tag, without touching anything before or after it |
| SvgXmlTokenizer.ParseAttribs | cad/PrusaSlicer/files/patch-src_libnanosvg_nanosvg.h:288-323 | at most 254 of the 256 slots are filled, each with the position of a string cut off in place |
| SvgXmlTokenizer.ParseAttr | cad/PrusaSlicer/files/patch-src_libnanosvg_nanosvg.h:293-312 | one attribute is cut out in place |
| SvgXmlTokenizer.CollectAttribs | cad/PrusaSlicer/files/patch-src_libnanosvg_nanosvg.h:321-327 | a callback that walks the slots to the null pointer sees the attributes |
| Scanning.UntilStops | cad/PrusaSlicer/files/patch-src_libnanosvg_nanosvg.h:301-311 | scanning stops at the first stop character |
| DependencyChain.RtIsReachability | Tools/scripts/chkdepschain.py:186-195 | the run-time list holds exactly the ports reachable over LIB and RUN edges |
| DependencyChain.BtIsReachability | Tools/scripts/chkdepschain.py:175-184 | the build-time list holds the BUILD and LIB dependencies and what each of them reaches |
| DependencyChain.DirectFirst | Tools/scripts/chkdepschain.py:186-195 | the run-time list begins with the LIB and RUN dependencies, in order, followed by what the first of them needs besides |
| DependencyChain.BuildFirst | Tools/scripts/chkdepschain.py:175-184 | and the build-time list with the BUILD and LIB ones |
| DependencyChain.ListedOnceIff | Tools/scripts/chkdepschain.py:175-195 | the run-time lists of a port and of all it needs name nothing twice if and only if their LIB and RUN dependencies do not |
| DependencyChain.RtUnfolds | Tools/scripts/chkdepschain.py:186-195 | the recursion equation of the run-time list |
| DependencyChain.RtListUnique | Tools/scripts/chkdepschain.py:186-195 | the list does not depend on the bound that shows that the recursion ends |
| DependencyChain.CallsBounded | Tools/scripts/chkdepschain.py:186-195 | n levels of calls suffice if and only if no dependency chain is longer than n |
| DependencyChain.TerminatesIffAcyclic | Tools/scripts/chkdepschain.py:186-195 | over finitely many ports the recursion ends if and only if no port below the start depends on itself |
| DependencyChain.Checker.GetPi | Tools/scripts/chkdepschain.py:107-111 | one record for each absolute path; the cache only grows |
| DependencyChain.Checker.GetDeps | Tools/scripts/chkdepschain.py:165-173 | the three dependency lists, cached or not |
| DependencyChain.Checker.GetRtDeps | Tools/scripts/chkdepschain.py:186-195 | ends, and returns the specified list, from any state of the caches; every cached entry stays right |
| DependencyChain.Checker.GetBtDeps | Tools/scripts/chkdepschain.py:175-184 | the same for the build-time list |
| DependencyChain.Checker.Extend | Tools/scripts/chkdepschain.py:179-182 | the extension loop, with recursive calls that fill the caches, computes the fold |
| SanitizePath.CopyPathRelative | archivers/unarj/files/sanitize.c:20-81 | the bounded buffer, with its popping and its length bookkeeping, receives the specified string and its NUL; nothing beyond len is written; the loop ends |
| SanitizePath.FittingSourceIsNormalised | archivers/unarj/files/sanitize.c:20-81 | a source shorter than the buffer becomes the join of its components with "." dropped and ".." popping one; the result is clean and a second pass leaves it alone |
| SanitizePath.NeverAbsolute | archivers/unarj/files/sanitize.c:20-81 | whatever the size, the result does not start with a slash |
| SanitizePath.ClimbsOutIff | archivers/unarj/files/sanitize.c:63-80 | the result has a ".." component if and only if the buffer cuts a longer component down to ".." |
| SanitizePath.TruncationClimbsOut | archivers/unarj/files/sanitize.c:63-80 | it happens: "..a" in three bytes |
| SanitizePath.PopComponent | archivers/unarj/files/sanitize.c:40-59 | popping cuts off the last component, in place |
| SanitizePath.AppendComponent | archivers/unarj/files/sanitize.c:63-77 | appending copies as much as fits |
| PathText.ComponentsConcat | archivers/unarj/files/sanitize.c:27-33 | components of a joined text are those of its parts |
| PathText.ComponentsOfJoin | archivers/unarj/files/sanitize.c:27-33 | splitting undoes joining |
| RelocatePhdrs.Relocate | ai/github-copilot-cli/files/relocate-phdrs.py:25-81 | the script decides as specified, rewrites the file only when it moves the table, and then exactly as specified |
| RelocatePhdrs.OutcomeIff | ai/github-copilot-cli/files/relocate-phdrs.py:25-74 | which files are moved, by their bytes: a little-endian ELF64 header with 56-byte entries, a table beyond the first page and wholly in the file, a segment that maps the first page, no other one starting between byte 64 and the end of the new table, and a stale table at 64; and for each refusal its condition |
| RelocatePhdrs.MovedEntries | ai/github-copilot-cli/files/relocate-phdrs.py:43-81 | in the moved file entry i of the old table, unless it is a PT_PHDR, stands behind those kept before it, byte by byte |
| RelocatePhdrs.NewTableIsOldTableWithoutPhdr | ai/github-copilot-cli/files/relocate-phdrs.py:43-46 | the rewritten header describes the old entries in order without PT_PHDR (ELF-64 object file format, program header) |
| RelocatePhdrs.RewrittenBytes | ai/github-copilot-cli/files/relocate-phdrs.py:76-81 | every byte outside e_phoff, e_phnum and the new table is unchanged, and the length too |
| RelocatePhdrs.SegmentsKeepTheirBytes | ai/github-copilot-cli/files/relocate-phdrs.py:48-58 | a kept segment that starts at 64 or later starts after the new table, and keeps its bytes |
| RelocatePhdrs.SecondRunDoesNothing | ai/github-copilot-cli/files/relocate-phdrs.py:34-36 | the new table passes the kernel's first-page test inside a segment that maps it, and a second run takes the early exit |
| RelocatePhdrs.FindRoom | ai/github-copilot-cli/files/relocate-phdrs.py:50-58 | the loop finds the lowest start in the first page and whether the first page is mapped |
| RelocatePhdrs.LimitBounds | ai/github-copilot-cli/files/relocate-phdrs.py:50-58 | no kept segment at 64 or later starts below the limit |
| RelocatePhdrs.LittleOfBytes | ai/github-copilot-cli/files/relocate-phdrs.py:78-79 | packing a number that fits and unpacking it gives it back |
| PatchTool.GetRelPath | Tools/scripts/patchtool.py:157-169 | for all paths for which the second loop ends, the result resolves from wrksrc to path if and only if wrksrc has a component and both have the same number of leading slashes, in which case it is relative; otherwise it leads to path with one slash |
| PatchTool.Resolves | Tools/scripts/patchtool.py:161-169 | climbing out of what is left of wrksrc and down what is left of path leads to path, although the common prefix was taken character by character |
| PatchTool.LoopTest | Tools/scripts/patchtool.py:165-167 | the loop condition fails after exactly as many steps as components are left |
| PatchTool.LoopEndsIff | Tools/scripts/patchtool.py:161-167 | for absolute paths some number of steps ends the loop if and only if wrksrc has one leading slash and a component, or path has two and wrksrc is the root or has two and a component |
| PatchTool.RootsApart | Tools/scripts/patchtool.py:161-169 | when only path has two leading slashes the result misses it |
| PatchTool.CommonPrefix | Tools/scripts/patchtool.py:160 | the longest common prefix, by characters |
| PatchTool.DecodeUndoes | Tools/scripts/patchtool.py:234-239 | a decoder recovers every path with no two adjacent separators |
| PatchTool.UniqueNameIff | Tools/scripts/patchtool.py:230-239 | among paths without empty components a patch name belongs to one path only if and only if no two of '_' and '/' are adjacent in it |
| PatchTool.SpacedIsUnique | Tools/scripts/patchtool.py:230-239 | such a path shares its name with no other path |
| Unmakeself.Memmem | archivers/unmakeself/files/unmakeself.c:55-85 | nothing is found if and only if the needle is empty or absent; what is found is the earliest match |
| Unmakeself.FindMagic | archivers/unmakeself/files/unmakeself.c:181-192 | nothing is found if and only if no read contains a whole magic number; otherwise the first such read decides, gzip before bzip2 |
| Unmakeself.MagicIs | archivers/unmakeself/files/unmakeself.c:166-169 | a magic number is a newline and the bytes 1f 8b, or BZh |
| Unmakeself.FoundIsFirstIff | archivers/unmakeself/files/unmakeself.c:181-192 | whatever the search reports, nothing included, it is the first magic number of the file if and only if one read returned that whole, with no gzip one in that read if it is bzip2's; it never reports an earlier place |
| Unmakeself.SplitMagicIsMissed | archivers/unmakeself/files/unmakeself.c:181-192 | a magic number split between two reads is missed and a later one taken |
| Unmakeself.Scan | archivers/unmakeself/files/unmakeself.c:199-213 | the fallback returns one past the last newline before the first byte that is not text and has a newline before it, for every way of cutting the file into reads |
| Unmakeself.ScanResultIsUnique | archivers/unmakeself/files/unmakeself.c:199-213 | that result depends on the file alone |
| Unmakeself.TextThenGzip | archivers/unmakeself/files/unmakeself.c:194-213 | after a text-only script the fallback finds a gzip archive whose magic number every read missed |
| Unmakeself.OtherBytesEnd | archivers/unmakeself/files/unmakeself.c:205-213 | tab, newline and 32 to 126 are text, and the first other byte behind a newline ends it |
| Unmakeself.GetOffset | archivers/unmakeself/files/unmakeself.c:164-214 | both phases together, each reading the file in its own pieces |
| WatcherPoll.RunReplays | ai/opencode2/files/patch-packages_core_src_filesystem_watcher.ts:51-61 | over every run of scans a strict listener accepts every event (create only when absent, update and delete only when present) and ends up with the files of the last scan |
| WatcherPoll.TickReplays | ai/opencode2/files/patch-packages_core_src_filesystem_watcher.ts:53-60 | the same for one tick |
| WatcherPoll.DiffIff | ai/opencode2/files/patch-packages_core_src_filesystem_watcher.ts:54-59 | a tick publishes an event if and only if the two scans differ on that file in that way |
| WatcherPoll.EventsIff | ai/opencode2/files/patch-packages_core_src_filesystem_watcher.ts:27-61 | between two listings an event is published if and only if a watched name has appeared, has gone, or has become or ceased to be a directory, become or ceased to be examinable, or has another time or size |
| WatcherPoll.Poller.Tick | ai/opencode2/files/patch-packages_core_src_filesystem_watcher.ts:52-61 | the two loops publish exactly the events that the listings before and after the tick give, and keep the new scan |
| WatcherPoll.Poller.Scan | ai/opencode2/files/patch-packages_core_src_filesystem_watcher.ts:27-50 | a scan gives each watched entry of the listing its signature, and is empty when the directory cannot be read |
| WatcherPoll.WatchedNames | ai/opencode2/files/patch-packages_core_src_filesystem_watcher.ts:35-48 | a scan holds exactly the watched names that are listed |
| WatcherSnapshot.OneTickAndForwardWindows | ai/opencode2/files/patch-packages_core_src_filesystem_watcher.ts:80-107 | in every run at most one tick is in flight, and the published windows of changes are disjoint and go forward, so no change is published twice |
| WatcherSnapshot.StepKeepsInv | ai/opencode2/files/patch-packages_core_src_filesystem_watcher.ts:83-100 | the invariant behind it, kept by every step, with a floor that never falls |
| WatcherSnapshot.LostForGood | ai/opencode2/files/patch-packages_core_src_filesystem_watcher.ts:92-97 | a change below the floor that no batch holds is never published |
| WatcherSnapshot.LostExactly | ai/opencode2/files/patch-packages_core_src_filesystem_watcher.ts:83-114 | over every run from the start of the subscription, a change below the floor is in no batch if and only if some step passed it over: between a batch's end and the stored snapshot, in a failed call's window, or before the next baseline |
| WatcherSnapshot.HeldUnlessPassedOver | ai/opencode2/files/patch-packages_core_src_filesystem_watcher.ts:83-114 | the same from every reachable state |
| WatcherSnapshot.CycleLosesNothingIff | ai/opencode2/files/patch-packages_core_src_filesystem_watcher.ts:92-94 | a tick that succeeds loses no change if and only if none falls between what its two native calls saw; otherwise the first such change is never published |
| WatcherSnapshot.FailedStoreLosesBatch | ai/opencode2/files/patch-packages_core_src_filesystem_watcher.ts:92-97 | when storing the snapshot fails, the batch in hand is lost |
| WatcherSnapshot.AfterUnsubscribe | ai/opencode2/files/patch-packages_core_src_filesystem_watcher.ts:108-114 | after unsubscribing at most one more batch is published, and none if nothing or a baseline is in flight; with nothing in flight the snapshot file stays deleted |
| WatcherSnapshot.UnsubscribeEnds | ai/opencode2/files/patch-packages_core_src_filesystem_watcher.ts:108-114 | unsubscribing between ticks deletes the snapshot file for good, and nothing more is published |
| WatcherSnapshot.LateBatchIff | ai/opencode2/files/patch-packages_core_src_filesystem_watcher.ts:108-114 | after unsubscribing some run still publishes a batch if and only if a tick past its baseline is in flight |
| WatcherSnapshot.FileComesBackIff | ai/opencode2/files/patch-packages_core_src_filesystem_watcher.ts:108-114 | and some run brings the snapshot file back if and only if any tick is in flight |
| WatcherSnapshot.LateBatch | ai/opencode2/files/patch-packages_core_src_filesystem_watcher.ts:83-114 | unsubscribing during a tick: its batch is still published and the snapshot file comes back |
| BlockSize.RoundUpByAdding | audio/alsa-plugins/files/patch-oss_pcm__oss.c:350-352 | adding the lowest bit until one is left gives the least power of two not below a positive start, and 0 for 0 |
| BlockSize.SmearRoundsUpIff | audio/faudio/files/patch-src_FAudio__platform__sdl2.c:13-19 | the smear on 16 bits rounds up to the least power of two if and only if the number is 1 to 32768; otherwise it gives 0 |
| BlockSize.RoundUpBySmearing | audio/faudio/files/patch-src_FAudio__platform__sdl2.c:13-19 | what the assignments compute is the least power of two not below the number if and only if that is 1 to 32768; otherwise it is 0 |
| BlockSize.BothRoundings | audio/faudio/files/patch-src_FAudio__platform__sdl2.c:13-19 | on 1 to 32768 the two programs compute the same number |
| BlockSize.BlockCount | audio/alsa-plugins/files/patch-oss_pcm__oss.c:364-370 | the count is the least power of two from 2 whose blocks cover the software buffer, or the maximum; no product overflows |
| BlockSize.HwParams | audio/alsa-plugins/files/patch-oss_pcm__oss.c:347-375 | the shift is the rounded-up logarithm of 8 ms of sound for every rate from 125 Hz, and 24 below; the count fits it |
| BlockSize.PowerIsShifted | audio/alsa-plugins/files/patch-oss_pcm__oss.c:354-358 | every power of two up to the limit is found by the logarithm loop |
| RingPointer.FollowIsAdvance | audio/linux-c7-alsa-plugins-oss/files/patch-oss-pcm_oss.c:115-133 | if the device moves by less than its buffer between calls, the position is its total advance since the start modulo the software buffer |
| RingPointer.FollowIsAdvanceIff | audio/linux-c7-alsa-plugins-oss/files/patch-oss-pcm_oss.c:115-133 | over every run, however far the device moves, the position is the total advance modulo the software buffer if and only if the whole device buffers that went by unseen add up to a multiple of it |
| RingPointer.OneCallIsExactIff | audio/linux-c7-alsa-plugins-oss/files/patch-oss-pcm_oss.c:126-131 | one call follows the device if and only if the whole buffers that went by unseen are a multiple of the software buffer |
| RingPointer.GatherIsIncrements | audio/linux-c7-alsa-plugins-oss/files/patch-oss-pcm_oss.c:134-159 | the other build keeps the sum of the positive increments modulo the software buffer |
| RingPointer.Oss.Start | audio/linux-c7-alsa-plugins-oss/files/patch-oss-pcm_oss.c:174-225 | what a start resets, and what it leaves when the device fails; whether the last counter lies in the device buffer |
| RingPointer.Oss.PointerByCounter | audio/linux-c7-alsa-plugins-oss/files/patch-oss-pcm_oss.c:109-133 | the new position with C's remainder for any counter, the errors, and the unchanged state on each of them; the counter stays in the device buffer if the device keeps it there |
| RingPointer.Oss.PointerBySpace | audio/linux-c7-alsa-plugins-oss/files/patch-oss-pcm_oss.c:134-161 | the same for the space counter |

## Left out

- PatchTool.GetRelPath: asks for `Ends`, because otherwise the program does not return; LoopEndsIff shows that `Ends` is exact.
- SvgElements.NestingStands: starts from transform lists already read. Where `Fine` does not hold, HeadRestoredIff, BottomAfter and DefsHideIff still speak of every document, but which transforms later shapes get is left to `HandleAll` itself.
- SvgBoxes.ImageHoldsCurves: speaks of trusted segments; ImageHoldsCurvesIff covers all.
- SvgShapes.EllipseStored: under a transform that is not axis-parallel the box is only what SvgBoxes says of all curves, because its sides depend on the square root.
- SvgShapes.RectStored: the same for a rounded rectangle.
- RelocatePhdrs.Relocate: `sys.exit` and struct errors are outcomes without their messages, and the file is read and written without I/O errors.
- DependencyChain.Checker.GetRtDeps: stated for bounded dependencies; on a cycle the program's recursion does not end, which is a lemma and not a run of the method.
- HidProtocol.Safety: a device freed while a reader is still inside hid_read_timeout is the caller's error and stops the run.
- SvgDraws.RunKeepsTip: asks that the arc geometry, which is a parameter, ends each arc where it should.
- SvgDraws.ArcDraws: leaves the shape of an arc's pieces to that parameter.
- Float rounding, `atof`, trigonometry of arcs, skew and rotation: parameters, or real arithmetic instead.
- Failure of malloc and realloc in nanosvg and hid.c: not modelled.
- Style attributes, colours, gradients and dashes of nanosvg: they fill in records that no modelled step reads. The attributes of rectangles, circles, ellipses and lines are numbers here; units and percentages are left out.
- Unit conversion and guessing of missing image sizes in nsvg__scaleToViewbox: the mapping is taken after them.
- Linked lists of shapes and paths: sequences, in list order.
- Device enumeration, string descriptors, iconv, feature reports and the language table of hid.c: foreign calls.
- POSIX thread errors, thread cancellation and clock arithmetic in hid_read_timeout: a timed wait ends with a signal, a time-out or an error, at any time.
- Running make, parsing dependency strings, the on-disk cache and the messages of chkdepschain.py: the dependency lists are parameters.
- Diff generation, prompts and the rest of patchtool.py: input and output only.
- libarchive extraction and option handling of unmakeself: input and output only.
- Native watcher calls: each sees the tree at one moment between its start and its end, and may fail.
- oss_prepare and the xrun flag of the alsa-plugins file, and its ioctl calls: device answers only.
- The second file with the linux-rl9 plugin repeats the linux-c7 one.
- Everything else in the tree: makefiles, header and build patches, shell and SQL tools without an algorithm of their own.
