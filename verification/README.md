# iPad bring-up tools: a verified model

This project models the host and device tools of an iPad hardware bring-up and proves what they promise:
the checkpointed register-access protocol with its watchdog supervisor, the dirty-rectangle compositor of the
touch demo, the reader and packer of META LDR firmware images, the archive, device-tree and packet formats, the
touch power sequence, and three small arithmetic cores.

`dafny verify dfyconfig.toml` checks the whole project.

## The pieces

**Checkpoint protocol** (`CheckpointText`, `CheckpointFraming`, `RegisterAccess`, `BridgeHost`, `BridgeSystem`,
`BridgeInvariant`, `BridgeSteps`, `BridgeSafety`, `BridgeLiveness`, `BridgeProbe`, `GpcInit`, `FenderWake`).
Lines are real text: every number is printed and parsed digit by digit, and the host compares strings.
The supervised bridge run is one transition system of three processes: the host with its byte buffer, the
supervisor, and the child (PMGR peek, then the probe), joined by a byte stream that may be cut anywhere and by
FIFO pipes. The terminal may turn newlines into CR LF and echo lines that carry no stage marker. The host may
give up at any moment; any pipe, ioctl or process may fail. The invariant `Inv` is kept by every action
(`BridgeSteps`), and the theorems of `BridgeSafety` and `BridgeLiveness` are about every run. The two shorter
protocols with poll loops are modelled as whole transcripts: for every register reading and every number of
answers, host and device agree, and from any received text the host returns only on a correct transcript.

**Compositor** (`Raster`, `Dirty`, `Marker`, `Compositor`, `TouchModel`, `TouchDemo`, `TouchBench`). The drawing primitives are methods on
pixel arrays, each specified pixel by pixel. `Display.Valid` says which back-buffer pixels may be out of date:
those marked dirty and those under a marker of the last frame. `Display.Render` turns that into equality with a
full recomposition, and `App.Run` carries it through any sequence of reports, buttons and frames in all three
screens, on every screen size and for every contact. The pixels the code gets wrong are followed one by one
(`Both`, `smear`, `Stray`), each with the exact condition under which there are none and a run that has some.
`TouchModel` says what reports, buttons and frames make of contacts, counts, targets and canvas; the methods of
`App` are proved against it, and what a report promises is proved about it.

**LDR images** (`Ldr`, `LdrImage`, `Ranges`, `Layout`). The checking walker accepts exactly the well-formed chains; the two
unchecked walkers are written with reads that are only legal in bounds, so that they verify at all is part of
the result. `LdrImage` writes images byte by byte, and what is written is what is reported.

**Touch power sequence** (`TouchDiag`). The outcome of every access is an input of the methods: one record for the
way up, one for unwind. So what succeeds, and what is put back, is stated exactly in terms of what the hardware
answers, and the end of `release` is a function with theorems about all of its inputs.

**Formats** (`Cpio`, `Overlay`, `Fdt`, `Hbpp`, `Console`) and **least squares** (`Fit`). `Common` holds what several
modules share.

## Where the code does less than it seems to

These are proved with the exact condition under which the code does meet the property.

- `draw_marker` stays inside the rectangle that later erases it exactly when the marker fits
  (`Marker.MarkerConfinedIff`): at most 52 font rows, an ID not too long for the width of five digits, and every
  stamp of the outline near enough. The code checks none of these, nor that the minor axis is at most the major one.
  Three contacts that leave pixels behind: `Marker.WideContactSpills`, `TallFontSpills`, `LongIdSpills`.
- `draw_target` marks 400 rows either way but puts the dot at the mean offset, which nothing bounds
  (`TouchModel.TargetConfinedIff`). A pixel drawn outside those rows changes the canvas unmarked. In `App.Run` such
  pixels are the only ones the next frames may show wrongly, and they do exactly while they are stray
  (`Compositor.Display.ShownIff`); `TouchBench.StaleTarget` is a run of one finger that ends with one.
- The two panels overlap on a screen shorter than both (`Compositor.PanelsApartIff`); the argument parser accepts
  256 rows, while the panels need 264 without a font. There a frame may redraw the status panel over the buttons
  (`Compositor.ShortScreen`).
- `release` of touch-diag looks at the value of its PMU readback but not at whether the read worked, so a saved
  value of zero whose write and readback both fail passes as restored: exactly then (`TouchDiag.ReleaseMissesIff`),
  and `TouchDiag.ReleaseGap` is a run from a successful `hold` that gets there.
- A clock word whose snapshot has the busy bit set is put back only if that bit stays set through the whole wait
  (`TouchDiag.ClockBackIff`).
- The comment at boot/touch-diag.c:322-323 says that `run` refuses an ungated clock. The code only prints a note
  (boot/touch-diag.c:1215-1216); `Board.Run` is proved without that assumption, and the snapshot is put back word for
  word either way.
- The comment at boot/touch-diag.c:287 calls unwind the reverse order of the power-up. It is exactly in the default
  order; in Apple's order GPIO95 and LDO14 still go before the clock, which came last (`TouchDiag.FullOrder`).
- The cycle check of `inspect` never refuses a chain that would have ended (`Ldr.ChainDistinct`), and the limit on
  regions in `summarize_ranges` is never reached (`Ranges.Collect`).

## Model

| member | source | states |
|---|---|---|
| CheckpointText.ParseHexInvertsHex | boot/gpu_gpc_init_capture.py:105-108 | Parsing printed hexadecimal digits gives the value back. |
| CheckpointText.HexInvertsParse | boot/gpu_gpc_init_capture.py:105-108 | Lower-case digits are reproduced from the value they parse to. |
| CheckpointText.BeforeTextInjective | boot/gpu_bridge_capture.py:103-105 | Two "before" lines that compare equal were printed with the same value. |
| CheckpointText.AfterPmgrTextInjective | boot/gpu-pmgr-peek.c:44-46 | The PMGR line determines the word that was read. |
| CheckpointFraming.SplitFirst | boot/gpu_bridge_capture.py:71-73 | Cutting the buffer at a newline gives the first line sent, however the stream was cut into chunks. |
| CheckpointFraming.NoneInBuffer | boot/gpu_bridge_capture.py:88-105 | With no further stage line sent, the buffer holds no stage marker, not even across chunk boundaries. |
| CheckpointFraming.CueOfLine | boot/gpu-watchdog-supervisor.c:99-109 | The supervisor's prefix and substring checks put every printed line in its right class. |
| BridgeHost.PlanSteps | boot/gpu_bridge_capture.py:25-31 | The plan is the gate read and the 66 writes, at fixed names and addresses with the file's values, or is refused when an offset differs. |
| BridgeHost.AddressesDistinct | boot/gpu_bridge_capture.py:26-30 | The 66 plan addresses are different, although the two windows overlap. |
| BridgeHost.Collector.Handle | boot/gpu_bridge_capture.py:74-112 | One line moves the collector's variables and sends the answer exactly as the host function does. |
| BridgeHost.Collector.OnChunk | boot/gpu_bridge_capture.py:69-112 | A received chunk is handled line by line until no newline is left or the host is done. |
| BridgeHost.PmgrAfterTextIs3ff | boot/gpu_bridge_capture.py:17 | The literal the host waits for is what the peek prints for 0x3ff. |
| BridgeHost.HostTakesNextOnly | boot/gpu_bridge_capture.py:77-112 | In every stage the host takes only the next line of the script, word for word, and answers it with the answer of that position. |
| BridgeHost.HostAloneTakesNextOnly | boot/gpu_bridge_capture.py:87-112 | Without the supervisor the host takes only the next of the 137 lines, word for word, sends READ and then ACCESS for the "before" lines and no FEED, returns exactly after the final line, and fails on any other stage line. |
| BridgeSteps.StepKeeps | boot/gpu-watchdog-supervisor.c:52-115 | Every action of host, supervisor, child, terminal or fault keeps the system invariant. |
| BridgeSteps.RunKeeps | boot/gpu-watchdog-supervisor.c:52-115 | So does every run. |
| BridgeSafety.AccessFollowsPlan | boot/gpu_bridge_capture.py:96-112 | Access k is the plan's access k whatever table the device holds, and was allowed by READ or ACCESS sent in answer to that very step's line; writes only after the gate read 0. |
| BridgeSafety.AbortLeavesAtMostOne | boot/gpu_bridge_capture.py:96-113 | At every moment the device has done the accesses whose results the host accepted, or one more. |
| BridgeSafety.AbortIsFinal | boot/gpu_bridge_capture.py:96-113 | After the host gives up, at most one more access happens, and none when no answer was outstanding. |
| BridgeSafety.SuccessMeansComplete | boot/gpu-bridge-once.c:54-76 | When the host returns, the registers are the initial ones with exactly the 66 plan addresses set, 68 keepalives were given and the watchdog is disarmed. |
| BridgeSafety.KeepaliveWasFed | boot/gpu-watchdog-supervisor.c:103-106 | The k-th keepalive came after FEED k, sent when the host accepted the k-th "after" line. |
| BridgeSafety.WatchdogStep | boot/gpu-watchdog-supervisor.c:62-115 | Once armed, the watchdog stays armed except through the one step after a clean child exit, the final line and at least one feed; a supervisor that failed never exits. |
| BridgeLiveness.HostAccepts | boot/gpu_bridge_capture.py:71-112 | With a responsive device the host accepts every line; the pipelined-checkpoint abort never fires. |
| BridgeLiveness.ChunkFits | boot/gpu_bridge_capture.py:65-70 | However recv cuts the stream, the capture limit is never reached. |
| BridgeLiveness.ResponsiveStep | boot/gpu_bridge_capture.py:63-113 | Every responsive step keeps the run healthy and lowers the measure. |
| BridgeLiveness.Progress | boot/gpu-watchdog-supervisor.c:97-114 | Until the host has returned some responsive step is possible: no deadlock. |
| BridgeLiveness.ResponsiveRunsComplete | boot/gpu_bridge_capture.py:63-113 | Responsive runs are bounded, never abort, and end with the host returned, 68 accesses, 68 feeds and all writes in place. |
| BridgeLiveness.FeedCountsAgree | boot/gpu-watchdog-supervisor.c:103-106 | With no answer in flight, supervisor and host have counted the same feeds, which is half the host's stage. |
| BridgeProbe.BridgeOnce | boot/gpu-bridge-once.c:41-76 | The probe's nested loops print, write and return what the child steps of the system do, and nothing at all for a bad plan file. |
| BridgeProbe.ReadLoop | boot/gpu-watchdog-supervisor.c:97-110 | The supervisor's read loop, counter and flag are the supervisor steps of the system. |
| BridgeProbe.SupervisedIsRun | boot/gpu-watchdog-supervisor.c:97-110 | The supervisor's loop over its lines and answers is a run of the transition system by its own steps. |
| BridgeProbe.ReceiveIsRun | boot/gpu_bridge_capture.py:69-112 | What the collector does with a chunk is a run of the transition system: receive, then one step a line. |
| RegisterAccess.AccessReg | boot/gpu-gpc-init.c:15-36 | One access prints, waits, touches the register and prints; without an answer it touches nothing. |
| RegisterAccess.MatchAfterText | boot/gpu_gpc_init_capture.py:105-108 | The host's pattern matches a printed "after" line with its value. |
| RegisterAccess.MatchAfterOnly | boot/gpu_gpc_init_capture.py:105-108 | It matches nothing but a printed "after" line. |
| RegisterAccess.BusyIsBit4 | boot/gpu-gpc-init.c:78 | The pending flag is bit 4, whatever the other bits are. |
| GpcInit.GpcInitMain | boot/gpu-gpc-init.c:38-90 | The program's lines, register accesses and status are those of the trace function, for every reading and number of answers. |
| GpcInit.Capture | boot/gpu_gpc_init_capture.py:27-127 | The collector's loop is the host function folded over the lines; it returns the last value on success and nothing otherwise, and sends the answers of the fold. |
| GpcInit.HostReturnsOnlyOnTranscript | boot/gpu_gpc_init_capture.py:63-127 | From any received text the host returns v only on the exact transcript: initial 0, three setup writes, then 1 to 64 polls, busy until the last, which shows state 1 and reads v; feeds equal accepted "after" lines. |
| GpcInit.AnswersFollowLines | boot/gpu_gpc_init_capture.py:63-126 | From any received text, failing or not, the answers sent are exactly those to the stage lines taken, in order: ARM, READ, ACCESS after each other "before" line, FEED 1, 2, 3 and so on after the "after" lines when supervised, and nothing else. |
| GpcInit.GrantedIs | boot/gpu_gpc_init_capture.py:112-117 | A poll ends the loop well exactly when bit 4 is clear and the low nibble is 1. |
| GpcInit.StageInRange | boot/gpu_gpc_init_capture.py:94-126 | On any text the stage counter stays in 0..11 or at 1000 and the poll counter below 64. |
| GpcInit.PollsAgree | boot/gpu_gpc_init_capture.py:94-126 | From poll i on, host and device agree on success, value and failure, including the 64th busy poll. |
| GpcInit.HostAgreesWithDevice | boot/gpu_gpc_init_capture.py:81-127 | For every run after the PMGR read, the host returns exactly when the program exits with status 0. |
| GpcInit.DeviceSucceeds | boot/gpu-gpc-init.c:66-90 | Status 0 exactly when the state read 0, the first idle poll within 64 shows state 1 and every access was answered; the accesses are then fully determined. |
| GpcInit.ReturnedMeansDone | boot/gpu_gpc_init_capture.py:94-127 | If the host returns, the program did the initial read of 0, the three setup writes and the polls up to the first idle one, whose value the host returns. |
| GpcInit.ClosedLoop | boot/gpu_gpc_init_capture.py:99-103 | With the host answering, each access of a full run gets exactly one ACCESS, for all readings. |
| GpcInit.RequestGuarded | boot/gpu-gpc-init.c:66-73 | In every run the request 0x11 is written only after the state read 0 and both setup writes. |
| FenderWake.PollState | boot/gpu-fender-wake.c:33-43 | The poll loop stops at the first value that ends it, at a missing answer, or after 64 reads. |
| FenderWake.FenderMain | boot/gpu-fender-wake.c:45-73 | The straight-line program is its eleven stages in order up to the first that fails. |
| FenderWake.Capture | boot/gpu_fender_wake_capture.py:20-64 | The collector's loop is the host function folded over the lines, and sends the answers of the fold. |
| FenderWake.RequestGuarded | boot/gpu-fender-wake.c:54-69 | In every run the request is written only after initial state 0, both reset loops done within 64 reads, the hold read back as 0x20 and both setup writes, with nothing else before it. |
| FenderWake.DeviceSucceeds | boot/gpu-fender-wake.c:54-73 | Status 0 exactly when all that holds and the wake loop ends within 64 reads, with every access answered. |
| FenderWake.HostReturnsOnlyOnScript | boot/gpu_fender_wake_capture.py:29-64 | From any text the host returns only on the eight exchanges in order with a completed loop of at most 64 values in each of the three places. |
| FenderWake.AnswersFollowLines | boot/gpu_fender_wake_capture.py:29-62 | From any received text, failing or not, the answers sent are one ACCESS for each "before" line taken, in order, and nothing else. |
| FenderWake.PyInt16OfHex | boot/gpu_fender_wake_capture.py:38 | Python's int(text, 16) reads a printed word back. |
| FenderWake.PollsSeen | boot/gpu_fender_wake_capture.py:32-46 | In each loop the host's poll counter equals the device's at every poll, and both give up at the same value. |
| FenderWake.HostAgreesWithDevice | boot/gpu_fender_wake_capture.py:20-64 | For every reading and number of answers, the host returns exactly when the program exits with status 0. |
| FenderWake.ReturnedMeansDone | boot/gpu_fender_wake_capture.py:20-64 | If the host returns, the program did the whole prelude, the request and the wake polls, and nothing else. |
| Raster.ClipIsScreen | boot/touchdemo.c:217-224 | Clipping keeps exactly the on-screen pixels of a rectangle. |
| Raster.HitIsSharedPixel | boot/touchdemo.c:226-229 | Nonempty rectangles hit exactly when they share a pixel. |
| Raster.UnionIsLeast | boot/touchdemo.c:236-245 | The union is the least rectangle around both. |
| Raster.Fill | boot/touchdemo.c:274-284 | Exactly the on-screen pixels of the rectangle get the colour. |
| Raster.Disk | boot/touchdemo.c:292-300 | Exactly the pixels within the radius get the colour. |
| Raster.Ring | boot/touchdemo.c:302-314 | Exactly the pixels between the two radii get the colour. |
| Raster.ThickLine | boot/touchdemo.c:316-329 | Exactly the pixels under a stamp of the line get the colour, with C's truncating division. |
| Raster.TrailInBox | boot/touchdemo.c:316-329 | Every stamp of a line lies between its ends, give or take the radius. |
| Raster.FrameRect | boot/touchdemo.c:353-359 | Exactly the four bars of the frame get the colour. |
| Dirty.MarkCovers | boot/touchdemo.c:247-268 | Marking keeps at most 32 clipped nonempty rectangles, forgets no marked pixel and marks the new ones, through merges and the collapse. |
| Dirty.MarkIsTight | boot/touchdemo.c:247-268 | Marking never spills outside a rectangle around the old list and the new rectangle. |
| Dirty.MarkApart | boot/touchdemo.c:247-268 | A rectangle apart from all others is added alone while there is room. |
| Marker.MarkerRadius | boot/touchdemo.c:946-958 | The marker radius is always between 12 and 220. |
| Marker.DrawText | boot/touchdemo.c:369-394 | Exactly the set pixels of the glyphs, side by side, get the colour; nothing without a font. |
| Marker.DrawEllipse | boot/touchdemo.c:332-341 | Exactly the pixels under the stamps get the colour. |
| Marker.DrawMarker | boot/touchdemo.c:1138-1156 | The marker is the text over its label over the cross over the outline, and nothing else changes. |
| Marker.StampBound | boot/touchdemo.c:332-341 | Whatever the tilt, every stamp lies within the larger semi-axis, rounded. |
| Marker.MarkerConfined | boot/touchdemo.c:1130-1156 | A fitting marker draws only inside the rectangle that erases it, for the font in use. |
| Marker.OrdinaryContactFits | boot/touchdemo.c:1130-1156 | A contact with minor at most major, an ID of at most five digits and a font of at most 52 rows fits. |
| Marker.LabelFitsIff | boot/touchdemo.c:1130-1155 | The label stays inside exactly when the font has at most 52 rows. |
| Marker.EllipseFitsIff | boot/touchdemo.c:1143-1147 | Whatever the tilt, the axes and the stamps, the outline stays inside exactly when every stamp is near enough. |
| Marker.SmallEnoughFits | boot/touchdemo.c:1143-1147 | An outline whose rounded minor semi-axis is at most the radius plus 61 fits at every tilt. |
| Marker.TextFitsIff | boot/touchdemo.c:1130-1155 | The ID stays inside, whatever the glyphs, exactly with at most 54 rows and an ID not too long. |
| Marker.MarkerConfinedIff | boot/touchdemo.c:1130-1156 | A marker stays inside the rectangle that erases it, whatever the glyphs, exactly when it fits. |
| Marker.WideContactSpills | boot/touchdemo.c:1143-1147 | A contact of minor axis 102 and major axis 12 draws 28 rows above the rectangle. |
| Marker.TallFontSpills | boot/touchdemo.c:1153-1154 | A font of 53 rows puts the label one row above it. |
| Marker.LongIdSpills | boot/touchdemo.c:1155 | An ID of seven digits in a font 25 pixels wide ends two columns to the right of it. |
| Compositor.PanelsApartIff | boot/touchdemo.c:960-982 | The panels of a layout share no pixel exactly for GRID, a hidden status panel, or a screen tall enough for both. |
| Compositor.ShortScreen | boot/touchdemo.c:1553-1565 | On a screen of 256 rows the second frame shows the status panel where the recomposition has the button bar. |
| Compositor.Display.constructor | boot/touchdemo.c:1795-1804 | A fresh display satisfies the invariant with everything marked. |
| Compositor.Display.Mark | boot/touchdemo.c:247-268 | The list becomes the marked list; no pixel is forgotten and the new ones are marked. |
| Compositor.Display.Layout | boot/touchdemo.c:972-982 | The panels get the rectangles of the mode. |
| Compositor.Display.PaintMove | boot/touchdemo.c:1226-1236 | The trail changes exactly the pixels of its line or dot, all of them marked, and keeps the invariant. |
| Compositor.Display.MarkMarkers | boot/touchdemo.c:1515-1526 | The list becomes the one with old and new markers marked, in slot order; every pixel under one is marked. |
| Compositor.Display.DrawMarkers | boot/touchdemo.c:1544-1551 | The live markers are drawn over the buffer in slot order. |
| Compositor.Display.DrawPanels | boot/touchdemo.c:1554-1565 | Panels are redrawn where something marked touches them, status panel first, and marked themselves. |
| Compositor.Display.Present | boot/touchdemo.c:659-703 | The screen becomes the back buffer, but for marker pixels outside every marked rectangle. |
| Compositor.Display.Render | boot/touchdemo.c:1511-1569 | After a frame every pixel outside both panels at once and outside the smear shows canvas, live markers in slot order, panels, from the canvas as last copied, which is the present one exactly where the pixel is not stray; the smear is exactly what markers drew outside their rectangles. |
| Compositor.Display.ShownIff | boot/touchdemo.c:1529-1539 | Where nothing covers the canvas a frame shows the right colour exactly when the pixel is not stray. |
| Compositor.NothingSpilt | boot/touchdemo.c:1544-1551 | Frames of markers that fit leave no pixel behind. |
| TouchModel.MapAxisOnScreen | boot/touchdemo.c:917-925 | Every value maps onto the screen, whatever the range. |
| TouchModel.MapAxisEnds | boot/touchdemo.c:917-925 | The ends of the range are the ends of the screen. |
| TouchModel.MapAxisMonotone | boot/touchdemo.c:917-925 | The mapping is monotone. |
| TouchModel.ToScreenOnScreen | boot/touchdemo.c:927-942 | With any swap and flips the contact is on the screen. |
| TouchModel.LevelMonotone | boot/touchdemo.c:1013-1022 | More hits never lower a cell's level, and only an untouched cell has level 0. |
| TouchModel.TargetConfined | boot/touchdemo.c:1036-1055 | A target whose offset is in range is drawn inside the rows it marks. |
| TouchModel.TargetConfinedIff | boot/touchdemo.c:1036-1055 | With the dot on the screen, that range is exact: 392 rows up to 391 rows down. |
| TouchDemo.App.constructor | boot/touchdemo.c:1057-1076 | The grid is set up and the first canvas marked in full. |
| TouchDemo.App.DrawCell | boot/touchdemo.c:1024-1034 | A cell's pixels get their border, outline or heat colour, nothing else changes, and the cell is marked. |
| TouchDemo.App.DrawTarget | boot/touchdemo.c:1036-1055 | A target is drawn over the canvas and its rows are marked, and nothing else. |
| TouchDemo.App.CanvasReset | boot/touchdemo.c:1109-1126 | The canvas becomes the reset picture of the mode and everything is marked. |
| TouchModel.CellUnderTouch | boot/touchdemo.c:1238-1240 | The cell counted for a touch is the one drawn under it. |
| TouchDemo.App.HitCell | boot/touchdemo.c:1238-1252 | When a hit changes the colour of its cell, the canvas is the cell under the targets near it and exactly their rectangles are marked; a pixel goes stray only where a target spills. |
| TouchDemo.App.GridMove | boot/touchdemo.c:1237-1261 | A touch counts for its cell and target, and the new canvas and dirty list are those of the hit; no condition on the targets. |
| TouchDemo.App.DoButton | boot/touchdemo.c:1158-1178 | A button makes of the state what the model says, and resets the canvas with everything marked. |
| TouchModel.HomeCycles | boot/touchdemo.c:1382-1386 | Home goes from PAINT to GRID to EVENTS and back and changes nothing else. |
| TouchModel.ClearForgets | boot/touchdemo.c:1078-1086 | Clearing the GRID screen forgets every hit, level and finished target, and moves none. |
| TouchDemo.App.NearestTarget | boot/touchdemo.c:1206-1216 | The loop finds the target of the model. |
| TouchModel.NearestIs | boot/touchdemo.c:1206-1216 | A touch belongs to the nearest target within 200 pixels, the first of equals, or to none. |
| TouchDemo.App.ContactDown | boot/touchdemo.c:1180-1218 | A landing contact gets its owner, its button or its nearest target, and a clean record. |
| TouchDemo.App.ContactMove | boot/touchdemo.c:1220-1262 | State and every canvas pixel become what the model makes of the move: the stroke in PAINT, the hit in GRID, nothing for a contact that does not draw. |
| TouchDemo.App.ContactUp | boot/touchdemo.c:1264-1278 | State and every canvas pixel become what the model makes of the lift, with everything marked after a button or a finished target. |
| TouchDemo.App.Hold | boot/touchdemo.c:1320-1334 | A held slot lands or moves: state, canvas and marks. |
| TouchDemo.App.Lift | boot/touchdemo.c:1335-1340 | A lifted slot becomes inactive and presses, finishes or changes nothing. |
| TouchDemo.App.Commit | boot/touchdemo.c:1289-1344 | A report makes state and every canvas pixel what its slots make of them one after the other, for every contact and every target, and keeps the invariant. |
| TouchModel.LandingEnds | boot/touchdemo.c:1180-1218 | After any report a slot newly held has the owner of the layout at its turn, its button if on the bar, and its first point if it draws. |
| TouchModel.HeldEnds | boot/touchdemo.c:1320-1333 | A slot that goes on being held keeps owner, button and target, and a drawing one that changed has moved on and counted for its target. |
| TouchModel.LiftEnds | boot/touchdemo.c:1264-1278 | A lifted slot leaves the mode, panel, counts and targets of the button it is still on or of the target it finishes, with a full redraw to the end of the report, and changes nothing otherwise. |
| TouchModel.PaintReport | boot/touchdemo.c:1226-1236 | After a PAINT report every pixel has the colour of the last slot, in slot order, whose stroke covers it, and its old colour where none does. |
| TouchModel.GridReport | boot/touchdemo.c:1237-1252 | After a GRID report every cell has grown by the drawing contacts over it that are new or changed, and has the level of its count; the others are as they were. |
| TouchDemo.App.Run | boot/touchdemo.c:1346-1386 | Any sequence of reports, Home presses and frames makes state and canvas what the model says and keeps the invariant; after every frame the screen is the full recomposition at every pixel that is not in both panels, not smeared and not stray, and stray pixels are only where a target of the GRID screen spills; if all contacts fit nothing is smeared. |
| TouchDemo.App.NoSpill | boot/touchdemo.c:1036-1055 | While every finished target is in range there is no spill, so no stray pixel. |
| TouchBench.StaleTarget | boot/touchdemo.c:1220-1278 | A contact is dragged 904 rows from its target and lifted, another paints the cell of the dot, a third redraws the dot: the next frame shows the cell where the recomposition has the dot. |
| TouchModel.ButtonUnder | boot/touchdemo.c:984-992 | The button of a point is the fifth of the bar it lies in, the last taking the remainder. |
| Ldr.ChainDistinct | tools/gpu_ldr_inspect.py:38-45 | A chain that ends visits no record twice. |
| Ldr.InspectRecord | tools/gpu_ldr_inspect.py:46-85 | A record is accepted exactly when it is well formed, and counted as what it is. |
| Ldr.Inspect | tools/gpu_ldr_inspect.py:19-87 | For every byte string the walk ends and accepts exactly the well-formed chains of at most 65536 records, with their totals. |
| Ldr.SameTotals | tools/gpu_ldr_inspect.py:208-215 | The report's sums over its entries are the totals of `inspect`. |
| Ldr.Apple15SkipsIff | tools/gpu_ldr_inspect.py:14-16 | The 15.8.8 guard is exactly [0x80000080, 0x8000c000), inside the 8.1 guard. |
| Ldr.ReadRecords | tools/gpu_ldr_inspect.py:168-207 | On an accepted image the unchecked walk stays in bounds, ends, and gives one entry a record in chain order. |
| Ldr.HostReport | tools/gpu_ldr_inspect.py:149-221 | The report exists exactly for well-formed images; its totals are those of `inspect` and its flags say whether such a record exists. |
| LdrImage.ImageBack | tools/gpu_ldr_inspect.py:29-31 | An image written little-endian from any records it can hold is accepted, with exactly those records in order: addresses, lengths, thread words and write pairs. |
| LdrImage.ReportBack | tools/gpu_ldr_inspect.py:149-215 | The report of a written image is what was written. |
| LdrImage.OneComment | tools/gpu_ldr_inspect.py:29-31 | The 24 bytes of the image of one comment. |
| Ranges.Sweep | tools/gpu_ldr_inspect.py:121-126 | The running maximum finds exactly the ranges that start before an earlier one has ended. |
| Ranges.SweepIsOverlap | tools/gpu_ldr_inspect.py:115-126 | On the sorted list that is exactly whether two of the ranges intersect. |
| Ranges.Lookup | tools/gpu_ldr_inspect.py:130-141 | Without overlaps the bisecting lookup agrees with a linear scan for every value and kind. |
| Ranges.FewerSkippedOn15 | tools/gpu_ldr_inspect.py:116-146 | Each 15.8.8 skip count is at most the 8.1 count. |
| Ranges.Collect | tools/gpu_ldr_inspect.py:95-114 | The walk stays in bounds and refuses only for its thread entries; the region limit is never reached. |
| Ranges.SummarizeRanges | tools/gpu_ldr_inspect.py:90-146 | The summary describes the image: overlap flag, counts over all ranges and lookup counts as linear scans would give them. |
| Layout.Measure | tools/gpu_g4g_apple_model.py:39-51 | Exactly the slots some record falls in have an extent, from the least normalised start to the greatest end, both attained. |
| Layout.Pack | tools/gpu_g4g_apple_model.py:52-58 | Each slot's offset is what the lower slots take. |
| Layout.PackedInOrder | tools/gpu_g4g_apple_model.py:52-58 | Offsets are 4 KiB aligned, increasing, and the allocations of two slots are disjoint. |
| Layout.MappedFits | tools/gpu_g4g_apple_model.py:97-101 | Every mapped record fits its allocation. |
| Layout.FitsIff | tools/gpu_g4g_apple_model.py:86-101 | A record fits unless it starts in [0, 0x08000000) or [0x82000000, 0x88000000). |
| Layout.SlotIs | tools/gpu_ldr_inspect.py:160-165 | Which addresses each slot takes, by interval. |
| Layout.CheckLayout | tools/gpu_g4g_apple_model.py:39-101 | Everything fits exactly when no load or zero record starts there. |
| Layout.DisjointOffsets | tools/gpu_g4g_apple_model.py:97-101 | Records with disjoint normalised ranges get disjoint offsets, and so do any two records of different slots. |
| Layout.BuildModel | tools/gpu_g4g_apple_model.py:12-101 | From the image on: extents, offsets, the fate of each placed record and the flag, refused exactly when `inspect` refuses it. |
| Fdt.FdtNodes | boot/verify_pcie_j81_reg_on_payload.py:81-105 | The loop is the parse function; exceptions are exactly its failures. |
| Fdt.NopsIgnored | boot/verify_pcie_j81_reg_on_payload.py:87-105 | NOP tokens change nothing, wherever they are. |
| Fdt.KeyInjective | boot/verify_pcie_j81_reg_on_payload.py:94 | Different node paths have different keys. |
| Fdt.ReadsTree | boot/verify_pcie_j81_reg_on_payload.py:81-105 | A serialised tree is read as the listing of its nodes, in order, later entries overriding. |
| Fdt.ReadsExactlyTheTree | boot/verify_pcie_j81_reg_on_payload.py:81-105 | With different sibling names the result is exactly the map from each node's full path to its properties. |
| Cpio.CpioEntries | boot/verify_pcie_j81_reg_on_payload.py:62-78 | The loop is the walk function, with its skipped zeros, alignment and truncating slices. |
| Cpio.RelativeDrops | boot/verify_pcie_j81_reg_on_payload.py:73 | A leading "./" of a name is dropped once, and nothing else. |
| Cpio.EntryRead | boot/assemble_private_wifi_payload.py:114-123 | A member written at a multiple of four is read back and the reader goes on right behind it. |
| Cpio.RoundTrip | boot/assemble_private_wifi_payload.py:135-141 | Reading a written archive gives exactly its members and ends at its end. |
| Cpio.OverlayOverrides | boot/assemble_private_wifi_payload.py:156-157 | Appending an archive to a complete base of a length divisible by four gives the base's map overridden by the archive's. |
| Overlay.AddParents | boot/assemble_private_wifi_payload.py:129-134 | All directories on the way to an entry are listed, outermost first, none twice. |
| Overlay.BuildOverlay | boot/assemble_private_wifi_payload.py:126-141 | The overlay is the archive of directories, files, extras and trailer, with every needed directory. |
| Overlay.ParentsFirst | boot/assemble_private_wifi_payload.py:128-141 | Every directory on the way to any member is a member before it. |
| Overlay.OverlayReadBack | boot/assemble_private_wifi_payload.py:126-141 | With distinct reportable names, reading the overlay gives exactly the names, modes and bytes written. |
| Overlay.AssetsPass | boot/assemble_private_wifi_payload.py:324-332 | On a composed image every nonempty asset passes the verifier's asset check unless a later entry has its path. |
| TouchDiag.EnableWordOpens | boot/touch-diag.c:254-262 | The enable word opens the gate, selects the divider, asks for it and keeps the other bits. |
| TouchDiag.Peripheral1Routes | boot/touch-diag.c:1272-1281 | The routed word reads back as routed and keeps every other bit. |
| TouchDiag.Board.ClockEnable | boot/touch-diag.c:254-262 | The clock word is the enable word as the hardware leaves it, ungated, and it fails exactly when the busy bit outlasts the wait. |
| TouchDiag.Board.StepLdo | boot/touch-diag.c:1019-1030 | The change is flagged before it is made; it succeeds exactly when write and readback work, and then the supply is on. |
| TouchDiag.Board.StepPower | boot/touch-diag.c:1032-1044 | The line is requested low, set high, and flagged exactly when it is high. |
| TouchDiag.Board.RoutePinmux | boot/touch-diag.c:1262-1283 | An already muxed pin is left alone; otherwise every exit is flagged for restoration, and it goes on exactly when the word takes and no signal arrived. |
| TouchDiag.Board.Sequence | boot/touch-diag.c:1225-1351 | For both power orders, every failure and every signal, the writes are exactly those of the order as far as it gets, nothing moves that is not flagged, reset is released only with the supply, GPIO95 and the clock on, and the end is reached exactly when nothing fails. |
| TouchDiag.Board.Unwind | boot/touch-diag.c:288-335 | Reset is asserted first, then pin, GPIO95, LDO14 and the clock are written in this order, and each value is exactly what its own write makes of it; `restoreFailed` is raised exactly for a clock or pinmux word that is not back. |
| TouchDiag.Board.UnwindClock | boot/touch-diag.c:318-334 | The clock word is exactly what gating and the written snapshot leave, gated or not, and the snapshot whenever that is not busy and the last write settles. |
| TouchDiag.ClockBackIff | boot/touch-diag.c:264-274 | The snapshot is back exactly when gating already gave it or the last write stays: never raising the busy bit for long, or keeping it for a snapshot that has it. |
| TouchDiag.Board.Run | boot/touch-diag.c:1193-1356 | For both orders, every failure point and every signal: once unwind's writes work and the snapshot is not busy, supply, clock word and GPIO55 are as before, GPIO95 is low, reset is asserted and no failure is flagged; each value alone once its own write works, and exactly then where reset was released. It succeeds exactly when every step does, and touches nothing where it refuses to start. All its writes are those of the order, up as far as it gets and then down, and a rail whose step was not begun is as it was. |
| TouchDiag.FullOrder | boot/touch-diag.c:1230-1260 | A run that gets to the release of reset has written clock, LDO14, GPIO95 in the default order or LDO14, GPIO95, clock in Apple's, then the pin and reset; unwind takes them back in reverse exactly in the default order. |
| TouchDiag.Board.Hold | boot/touch-diag.c:1053-1085 | `hold` succeeds exactly from the off state with nothing held and every access working; otherwise each value is as before once unwind's own write works, and where it refuses nothing changes. |
| TouchDiag.Board.Release | boot/touch-diag.c:1087-1112 | `release` does what its result function says and touches nothing else. |
| TouchDiag.Board.HoldThenRelease | boot/touch-diag.c:1046-1112 | After a successful `hold`, a `release` whose accesses work returns 0 with everything as before; whenever it returns 0 clock and file are as before, and the supply is exactly but for the one missed case. |
| TouchDiag.ReleaseWorks | boot/touch-diag.c:1087-1112 | When its accesses work `release` returns 0 and both values are those of the file. |
| TouchDiag.ReleaseMissesIff | boot/touch-diag.c:1103-1108 | It returns 0 with the supply not put back exactly for a saved zero whose write and readback both fail. |
| TouchDiag.ReleaseTellsIff | boot/touch-diag.c:1103-1108 | Its result can be trusted whatever else happens exactly when the saved value is not zero or the readback works. |
| TouchDiag.ReleaseGap | boot/touch-diag.c:1046-1112 | A run into that case: held from a supply word of zero, released with 0, and the supply still on. |
| Hbpp.SwapSwap | boot/touch_fw_rebuild.py:23-24 | Swapping the halves twice is the identity. |
| Hbpp.ParseBuild | boot/touch_fw_rebuild.py:33-56 | A built packet parses to its payload and address. |
| Hbpp.BuildParse | boot/touch_fw_rebuild.py:33-62 | A parsed packet with a payload of 4 to 0xFFF0 bytes is what building it gives, so the self-check never fails there. |
| Hbpp.RebuildIs | boot/touch_fw_rebuild.py:59-65 | Rebuilding succeeds exactly for nonempty word-aligned slices inside the payload. |
| Hbpp.RebuildComposes | boot/touch_fw_rebuild.py:59-65 | A slice of a slice is one slice at the summed offset. |
| Hbpp.PartitionLoads | boot/touch_fw_rebuild.py:59-65 | Loading any partition into consecutive slices writes the same memory as the whole packet. |
| Hbpp.DecodersAgree | boot/analyze_touch_capture.py:117-137 | The analyser finds a matching layout exactly when the parser accepts and the word count is 1 to 252. |
| Hbpp.Put32IsAddrBytes | boot/touch-diag.c:755-761 | The diagnostic and the packet builder write addresses alike. |
| Hbpp.SumFrame | boot/touch-diag.c:763-770 | The 16-bit accumulator is the byte sum modulo 65536. |
| Hbpp.FillFrame | boot/touch-diag.c:789-799 | The frame buffer is filled in place with opcode, operands and their sum. |
| Hbpp.FramesClassified | boot/analyze_touch_capture.py:104-109 | Every read, write and execute frame is classified as what it is, with matching checksum and tail. |
| Hbpp.FramesCarry | boot/touch-diag.c:772-799 | The address stands behind the opcode of every frame, and behind it in a write the full mask and the value, as the reply decoder reads them. |
| Hbpp.ChunkTransfers | boot/touch-diag.c:631-649 | The chunked upload sends the same bytes, in the expected number of transfers of the chunk size. |
| Fit.DenominatorSign | boot/uart3_frame_experiment.py:59 | The denominator is never negative, and positive exactly when two x values differ. |
| Fit.FitsIff | boot/uart3_frame_experiment.py:53-60 | A line is fitted exactly then. |
| Fit.FitIsOptimal | boot/uart3_frame_experiment.py:53-60 | No line has a smaller sum of squared residuals. |
| Fit.FitRecoversLine | boot/uart3_frame_experiment.py:53-60 | On collinear points the fit recovers the line. |
| Console.StripIac | boot/ipad_console.py:68-87 | The index loop is the strip function. |
| Console.StripIsData | boot/ipad_console.py:68-87 | Stripping a stream of tokens gives exactly its data bytes. |
| Console.StripHomomorphic | boot/ipad_console.py:68-87 | Cutting a stream between tokens changes nothing. |
| Console.EveryStream | boot/ipad_console.py:68-87 | Every byte string is such a stream with at most one cut token at the end, which is dropped. |
| Console.NoTie | boot/ipad_console.py:423-425 | No target is halfway between two codes. |
| Console.CodeInverts | boot/ipad_console.py:419-425 | Encoding undoes decoding on codes 0 to 0xFD. |
| Console.Monotone | boot/ipad_console.py:419-425 | Code and current are monotone. |
| Console.CodeError | boot/ipad_console.py:419-425 | Unclamped, the current is at most 7 mA below and 6 mA above the target. |
| Console.CustomWithinLimit | boot/ipad_console.py:492-502 | No accepted custom target decodes above 2400 mA. |

## Left out

- Sockets, files, fsync, logs, clocks and deadlines: a deadline is the host giving up at any moment, channels are reliable FIFOs.
- SHA-256, gzip, JSON, regular-expression engines and git checks: the digest is a function, decompression is undone compression, and the one pattern used is written out.
- The wrapper scripts that start the peek and the probe are not part of this model; the child is the peek followed by the probe.
- The supervisor's other modes and the unsupervised bridge as a whole system: the collector is modelled in both modes, the composition for the supervised one.
- BridgeProbe.ReadLoop: pipe writes and ioctls succeed in this method; their failures are actions of the transition system.
- GpcInit.HostAgreesWithDevice: starts at the first register step, since the PMGR exchange and the watchdog opening are covered by HostReturnsOnlyOnTranscript; lines arrive one at a time, as they do from a device that waits for its answer.
- FenderWake.HostAgreesWithDevice: answers are counted rather than delivered one by one, since this host sends one for every "before" line as the GPC host does.
- GpcInit.Capture: takes lines, not chunks; cutting chunks into lines and the 64 KiB limit are modelled for the bridge.
- FenderWake.Capture: takes lines, not chunks, likewise.
- RegisterAccess.AccessReg: printing succeeds.
- BridgeHost.PlanSteps: the length and digest of the plan file are left out.
- BridgeProbe.BridgeOnce: the once-only guard, the mapping and output failures are left out.
- FenderWake.HostReturnsOnlyOnScript: inside a poll loop the host checks only the start of a line, so the lines there are described by that and by the value after the last equals sign.
- Fonts, text scaling and wording: a font is its cell size and set pixels at the scale in use, and panel contents are arbitrary pictures that stay inside their panels; the code clips them only to the screen.
- Marker.MarkerRadius: where the diameter comes from is left out.
- Marker.DrawText: glyph scaling and the replacement of characters outside the font are part of the font's pixels.
- Marker.DrawEllipse: the stamps are any points of the unit circle, of which the code takes evenly spaced ones.
- Compositor.Display.DrawPanels: panel contents are arbitrary pictures that stay inside their panels.
- Compositor.Display.Present: only the mapped buffer is modelled.
- Compositor.Display.Render: the framebuffer path with its pixel packing and the DIRTYFB call are left out, and rows of the flat buffers are rows of a two-dimensional array.
- Marker.StampBound: cosines and sines are exact reals on the unit circle, so the floating-point error of the angles is not in it.
- 32-bit overflow of screen coordinates in touchdemo, whose screens are at most 8192 pixels wide when given on the command line.
- Layout.CheckLayout: buckets, byte counts, thread stack candidates and the constant parts of the model dictionary are left out; they would add only easy members.
- Cpio.CpioEntries: header fields must be hexadecimal digits, where int(field, 16) would also take signs, spaces and underscores; names are taken as their own encoding.
- Cpio.OverlayOverrides: a base whose length is not a multiple of four is left out, because the reader then aligns to the wrong place.
- Overlay.BuildOverlay: names are relative, as its comment says; an absolute path would add a directory with an empty name.
- Fdt.FdtNodes: text decoding of names is left out, names are byte strings.
- Hbpp.RebuildIs: addresses stay below 2^32; beyond that the code neither refuses nor wraps the address.
- TouchDiag.Board.Sequence: firmware upload, calibration and probe frames are one step that may fail, since they move no rail; a line request that fails has no effect, and a failed line write has none either.
- TouchDiag.Board.Release: the state file can always be removed.
- `dsync`, `dsync-restore`, `dsync-gpio` and the status and plan commands of touch-diag: easy members beside `run` and `hold`.
- Fit.FitLine: real arithmetic, so floating-point rounding is left out.
- The other capture scripts, Bluetooth, UART and H1B tools, USB loaders, the HTTP server, kernel trace harnesses and the small GPU plan stubs.
