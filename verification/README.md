# Flight firmware and tools: a verified model

The repository holds a flight controller firmware and the ground tools that go
with it. This project models five of its cores in Dafny and proves what they are
relied on for. To check it, run `dafny verify dfyconfig.toml`.

**Calibration** (`LinearSystem`, `GaussJordan`, `Matrix3`, `Jacobi`, `CubeRoot`,
`EllipsoidFit`, `SixPointFit`). The 9x9 Gauss-Jordan solver, the cyclic Jacobi
decomposition and the Newton cube root work in place on arrays, as the firmware
does, and compose into one end-to-end statement about the ellipsoid fit: how far
from a sphere any point of the fitted quadric can be mapped. The six-pose fit is
shown never to take its duplicate-pose exit and to recover ideal sensors exactly.

**ESC calibration** (`SystemState`, `EscCalib`, `EscGestures`, `MotorTask`,
`EscProtocol`, `EscHistory`). The per-frame service and the motor iteration are classes over
the firmware's statics; the two-boot protocol is a transition system over boot,
RC, motor, storage, clock and other-task steps in any order, with the power cut
anywhere.

**Byte streams** (`Ibus`, `IbusStream`, `Crc32`, `SimLog`, `Splitter` with
`NavLinkFrames`, `NavLinkReaders`, `Download`). A receiver state machine, a
checksum, a log reader, two incremental frame splitters and a reassembling
download over a link that loses, repeats and reorders.

**The circular log** (`Generations`, `RingLog`, `RingReader`, `Sessions`, `Timebase`). The
recorder's ring with its cursor hint, power cuts and resumes, and the reader that
recovers write order, gaps, armed periods and sample times.

**Two tools** (`SymSolve`, `LeastSquares`, `GoldenSection`; `CallGraph`,
`CallPaths`, `Multiplicity`). Output-error identification, and the call-graph
counting of the allocation budget.

Loops that change things are methods with invariants, objects that change are
classes, and each is tied to a function or relation about which the results are
lemmas. Floats are reals. The square root and the logarithm are function
parameters; the square root is assumed non-negative with the argument as its
square, the logarithm only non-zero at the pole. Clocks, message arrival, file
system answers and the queue of the mixer are inputs or labels.

## Where the code does less than its comments say

The code is followed in each case. Each item names the members that say exactly
when the promise is kept and those that give an input for which it is not.

- Clearing the calibration marker is not checked, so one request can be taken
  twice. Calibrations stay within durable requests exactly when the lost
  clearings are made up for by requests that led to none
  (`EscProtocol.OneAttemptPerRequest`, `EscProtocol.LostClearRepeats`).
- A search whose first two points are both infinite keeps the upper part, whatever
  the grid has found; the minimiser is lost exactly if it lies before them
  (`GoldenSection.NarrowBracketsExactly`, `GoldenSection.MinimumLost`).
- A motor output left over from calibration can be repeated by the first armed
  iteration that finds the mixer queue empty. It is repeated exactly as long as
  nothing but such iterations follow (`MotorTask.OutputHasSource`,
  `EscProtocol.StaleMaximum`).
- The 60 s backstop relies on frames arriving, and 2³²−60000 ticks is exactly how
  far apart they may be (`EscGestures.BackstopExact`, `EscGestures.BackstopMissed`).
- The resume margin keeps numbers unique exactly while the next number is at most
  32 ahead of the hint. Hint rewrites that fail can exceed that, and a single one
  at boot, where the result is discarded, is enough (`RingLog.MarginExact`,
  `RingLog.LostHintsRepeat`, `RingLog.LostBootHintRepeats`).
- A second INFO message clears the download buffer but not the cursor
  (`Download.PrefixCorrectExactly`, `Download.SecondInfoWipes`), and a chunk with
  fewer bytes than its length field shrinks the buffer (`Download.BufferLength`,
  `Download.ShortChunkShrinks`).
- The log reader gives up at a header that announces more than is left, and at
  twelve bytes before the end. An intact packet is found exactly when it starts
  before that place (`SimLog.FoundExactly`, `SimLog.FoundBefore`,
  `SimLog.StrayHeaderHides`); in a clean log that costs exactly a packet without
  payload at the very end (`SimLog.CleanLog`).

Three things a caller may not expect. The ellipsoid fit overwrites the offset
before it finds out that the quadric is no ellipsoid, and the six-pose fit before
it finds the frame singular; `EllipsoidFit.FitEllipsoid` and
`SixPointFit.FitSixPoint` state outcome by outcome what is left. And where the
header speaks of a chance that a new generation shares the old sentinel, over a
readable old header it is certain for low byte 0xFF and impossible otherwise, and
no generation chosen has that low byte (`Generations.GenerationsDiffer`).

## Model

| member | source | states |
|---|---|---|
| `LinearSystem.ExchangeEquivalent` | firmware/src/calib/calib_ellipsoid.c:68-77 | Swapping two rows leaves the solution set unchanged. |
| `LinearSystem.ScaleEquivalent` | firmware/src/calib/calib_ellipsoid.c:78-81 | Scaling a row by a non-zero factor leaves the solution set unchanged. |
| `LinearSystem.ReduceEquivalent` | firmware/src/calib/calib_ellipsoid.c:82-89 | Subtracting a multiple of another row leaves the solution set unchanged. |
| `LinearSystem.TracesPivot` | firmware/src/calib/calib_ellipsoid.c:82-89 | On whatever zeroes the rows pivoted on, the rows as given have no values but zero and those of the rows still to come. |
| `LinearSystem.IdentityNotSingular` | firmware/src/calib/calib_ellipsoid.c:66-67 | A system in identity form is not nearly singular, whatever tolerance up to one. |
| `LinearSystem.Unsettled` | firmware/src/calib/calib_ellipsoid.c:66-67 | What near singularity means: an entry of a solution can move by one with no equation off by as much as the smallest pivot. |
| `LinearSystem.IdentitySolved` | firmware/src/calib/calib_ellipsoid.c:91-92 | A system reduced to identity columns has its right-hand side as its one and only solution. |
| `GaussJordan.PivotOn` | firmware/src/calib/calib_ellipsoid.c:56-90 | One outer iteration: equivalent system, one more identity column, one row fewer that the rows as given can differ from zero by; giving up means every candidate pivot is below 1e-12 and nothing was touched. |
| `GaussJordan.Solve` | firmware/src/calib/calib_ellipsoid.c:54-94 | Success: the answer is the unique solution of the system as passed in. Failure: the matrix as passed in is nearly singular, taking a vector with a unit entry to less than 1e-12 in every row; x is untouched. |
| `Jacobi.RotationKeepsDecomposition` | firmware/src/calib/calib_ellipsoid.c:126-140 | Conjugating by an orthogonal J and accumulating J keeps V orthogonal, a symmetric and V·a·Vᵀ equal to the input. |
| `Jacobi.RotationZeroes` | firmware/src/calib/calib_ellipsoid.c:118-135 | The rotation zeroes entry (p,q) and lowers the sum of squared off-diagonal entries by exactly 2·apq². |
| `Jacobi.Rotate` | firmware/src/calib/calib_ellipsoid.c:116-141 | One inner iteration, skipped below 1e-15: keeps the decomposition of any input it decomposed before, with the exact drop when not skipped. |
| `Jacobi.TurnsContract` | firmware/src/calib/calib_ellipsoid.c:116-141 | Through the three turns of a sweep, rotations by at most an eighth of a turn and skips alike, the entries above the diagonal. |
| `Jacobi.SweepContracts` | firmware/src/calib/calib_ellipsoid.c:113-142 | While the sweep test fails, a sweep leaves at most 0.51 of the squared off-diagonal sum, and at most 0.26 from the second on. |
| `Jacobi.FiftySweeps` | firmware/src/calib/calib_ellipsoid.c:113-142 | Fifty sweeps leave at most 1.2e-29 of it. |
| `Jacobi.ModestSettles` | firmware/src/calib/calib_ellipsoid.c:113-142 | So every input whose squared off-diagonal sum is at most 50000 ends with a spread below 1e-12. |
| `Jacobi.Eig3` | firmware/src/calib/calib_ellipsoid.c:99-146 | For every symmetric input: V is orthogonal and V·d·Vᵀ is exactly the input for a symmetric d whose diagonal is w; the spread of d is below 1e-12 or its squared off-diagonal sum has shrunk by the factor of fifty sweeps, and the former always for inputs of moderate size; the input array is unchanged. |
| `CubeRoot.NeverUnder` | firmware/src/calib/calib_ellipsoid.c:46-47 | From any positive estimate one Newton step never underestimates the cube root. |
| `CubeRoot.Squares` | firmware/src/calib/calib_ellipsoid.c:46-47 | From above, a step turns relative excess rho of the cube into at most rho²/3. |
| `CubeRoot.Reduce` | firmware/src/calib/calib_ellipsoid.c:36-44 | Both reduction loops terminate; x0 = x·f³ exactly with x in [1/8, 1]. |
| `CubeRoot.TenSteps` | firmware/src/calib/calib_ellipsoid.c:46-47 | The overshoot bound, squared over three at each of the ten steps, ends below 3e-384. |
| `CubeRoot.CbrtPos` | firmware/src/calib/calib_ellipsoid.c:33-49 | Zero for non-positive input; otherwise the cube of the result is at least x and at most x·(1 + 3e-384). |
| `EllipsoidFit.SoftSquared` | firmware/src/calib/calib_ellipsoid.c:203-213 | soft² = scale²·(Q − V·E·Vᵀ), with E what the iteration left off the diagonal; soft is symmetric. |
| `EllipsoidFit.NotPositive` | firmware/src/calib/calib_ellipsoid.c:200-201 | A non-positive eigenvalue estimate proves the quadric matrix is not positive definite, even when the iteration has not converged. |
| `EllipsoidFit.QuadricIs` | firmware/src/calib/calib_ellipsoid.c:170-191 | The matrix and the vector built from the nine parameters stand for the polynomial with terms x², y², z², 2yz, 2xz, 2xy, 2x, 2y, 2z, in that order, at every point. |
| `EllipsoidFit.CentreSymmetric` | firmware/src/calib/calib_ellipsoid.c:188-196 | About the centre stored, that polynomial takes the same value at opposite points. |
| `EllipsoidFit.NotConvex` | firmware/src/calib/calib_ellipsoid.c:200-201 | What the last failure means: a direction in which the polynomial, summed over its two senses, is not positive. |
| `EllipsoidFit.FitMapsToSphere` | firmware/src/calib/calib_ellipsoid.c:182-215 | End to end: every point at which the quadratic polynomial of the nine fitted parameters is 1 maps through soft·(x − offset) to the stated squared radius. |
| `EllipsoidFit.FitKeepsVolume` | firmware/src/calib/calib_ellipsoid.c:170-177 | The shape matrix of a good fit preserves volume: its determinant is at most 1 and at least 1/(1 + 3e-384). |
| `EllipsoidFit.FitSphereError` | firmware/src/calib/calib_ellipsoid.c:182-215 | End to end: the squared-radius error of every such point is at most the spread times the squared distance, and the square of the spread is at most 1e-24 plus 1.8e-29 of twice the sum of the squared mixed coefficients. |
| `EllipsoidFit.FitWithinTolerance` | firmware/src/calib/calib_ellipsoid.c:182-215 | When twice the sum of the squared mixed coefficients is at most 50000 every such point lands within 1e-12 of its squared distance of one sphere. |
| `EllipsoidFit.AxisOnQuadric` | firmware/src/calib/calib_ellipsoid.c:170-177 | The point at a semi-axis along an eigenvector estimate makes the polynomial 1; its square is the level over the estimate. |
| `EllipsoidFit.FitRadius` | firmware/src/calib/calib_ellipsoid.c:170-177 | The radius is the geometric mean of the semi-axes, up to the volume factor. |
| `EllipsoidFit.FitEllipsoid` | firmware/src/calib/calib_ellipsoid.c:182-215 | Success: a good fit for the unique solution of the normal equations. Each failure says what was wrong (nearly singular equations, determinant below 1e-20, not positive definite) and what had already been overwritten: the offset, but never the shape matrix. |
| `SixPointFit.NoTwoSides` | firmware/src/calib/calib_ellipsoid.c:227-253 | No pose clears cosine 0.8 on two sides. |
| `SixPointFit.ClearsExactly` | firmware/src/calib/calib_ellipsoid.c:239-253 | A pose clears a side exactly when it is not negligible and its component towards it is more than 0.8 of its length. |
| `SixPointFit.Select` | firmware/src/calib/calib_ellipsoid.c:229-254 | Each side ends with a pose that clears it and that no clearing pose faces better, or −1 exactly when none clears it. |
| `SixPointFit.FitSixPoint` | firmware/src/calib/calib_ellipsoid.c:218-307 | The exact outcome for every pose set: too few iff fewer than six, missing iff some side is uncovered, duplicate never, singular or fitted by the determinant. What is stored in each case: the midpoints, axis by axis, and, when fitted, the diagonal of the matrix that takes each positive pose, less the offset, to g along its axis. |
| `SixPointFit.TakesOnce` | firmware/src/calib/calib_ellipsoid.c:276-305 | For a frame of non-zero determinant at most one matrix takes its three poses to g along the three axes. |
| `SixPointFit.AllScalesTake` | firmware/src/calib/calib_ellipsoid.c:276-305 | And one does: g over the determinant times the cofactors. |
| `SixPointFit.ScalesAreDiagonal` | firmware/src/calib/calib_ellipsoid.c:294-305 | What is stored is the diagonal of the one matrix that does. |
| `SixPointFit.IdealRecovered` | firmware/src/calib/calib_ellipsoid.c:271-305 | For ideal poses the bias is recovered exactly and every pose maps to ±g along its own axis. |
| `SystemState.TableExactly` | firmware/src/sys/state.c:47-111 | A transition is listed exactly if it is one of the rows written out, in the order of the source. |
| `SystemState.EntriesGuarded` | firmware/src/sys/state.c:92-111 | Exactly from which states ESC_CALIB, ARMED and IN_AIR can be entered; FAILSAFE from all. |
| `SystemState.LeavingCalibration` | firmware/src/sys/state.c:47-111 | Under any sequence of requests ESC_CALIB is left only for STANDBY or FAILSAFE. |
| `EscCalib.Service.RcFrame` | firmware/src/actuator/esc_calib.c:200-295 | One frame updates the statics, the state and the request queue exactly as the step function over which the gesture, timeout and protocol results are proved. |
| `EscGestures.RequestNeedsHeldGesture` | firmware/src/actuator/esc_calib.c:237-261 | A request is queued only at the end of an unbroken run of non-failsafe STANDBY frames holding the gesture for 1500 true ticks, through any clock wrap. |
| `EscGestures.ClosingNeedsHeldGesture` | firmware/src/actuator/esc_calib.c:281-289 | The closing phase is entered only at the end of such a run of the closing gesture in ESC_CALIB. |
| `EscGestures.RequestHappens` | firmware/src/actuator/esc_calib.c:237-262 | Conversely: a held entry gesture is requested at the first frame 1500 true ticks on, exactly if the queue accepts, and not before. |
| `EscGestures.RequestResolves` | firmware/src/actuator/esc_calib.c:220-235 | A pending request is resolved at the first frame on which the write has failed, is committed or is 3000 ticks old, in this order, and nothing else happens until then. |
| `EscGestures.ClosingHappens` | firmware/src/actuator/esc_calib.c:281-290 | From full throttle, a held closing gesture ends in the settling phase at the first frame 1500 true ticks on, and not before. |
| `EscGestures.SettleEnds` | firmware/src/actuator/esc_calib.c:292-294 | Settling ends in STANDBY, all phases off, at exactly the first frame 2000 ticks on. |
| `EscGestures.Aborts` | firmware/src/actuator/esc_calib.c:209-216 | A failsafe frame or a state change ends any calibration phase at once. |
| `EscGestures.HighTimesOut` | firmware/src/actuator/esc_calib.c:275-279 | With frames at most 2³²−60000 ticks apart, no frame leaves full throttle standing 60000 ticks or more after it began. |
| `EscGestures.BackstopMissed` | firmware/src/actuator/esc_calib.c:276-276 | One tick more between two frames and full throttle stands: neutral frames at ticks 59999 and 2³². |
| `EscGestures.BackstopExact` | firmware/src/actuator/esc_calib.c:275-279 | So the backstop works for every run of frames at most gap ticks apart if and only if gap is at most 2³²−60000. |
| `MotorTask.Motors.Iterate` | firmware/src/actuator/motor.c:67-108 | One iteration takes one queue item or repeats, overrides by state, and carries the commanded value; nothing happens before the motors are ready. |
| `MotorTask.OutputHasSource` | firmware/src/actuator/motor.c:72-101 | Every output is that of the last iteration that did not merely repeat, with only armed empty-queue iterations since. |
| `MotorTask.ZeroStands` | firmware/src/actuator/motor.c:95-101 | After an iteration in a state that may not spin, later empty-queue iterations put out zero unless calibration is at maximum. |
| `EscProtocol.RunKeepsInv` | firmware/src/actuator/esc_calib.c:94-298 | Hence every run of any interleaving does. |
| `EscProtocol.MaximumOnlyAfterTaking` | firmware/src/actuator/esc_calib.c:103-122 | An iteration driving calibration output above zero is in a boot that read a durable marker and attempted to clear it before entering, in phase HIGH. |
| `EscProtocol.OneAttemptPerRequest` | firmware/src/actuator/esc_calib.c:102-122 | The exact balance of durable writes, lost clearings, rewrites, cut-short boots and calibrations over every run, hence exactly when calibrations stay within the writes. |
| `EscProtocol.LostClearRepeats` | firmware/src/actuator/esc_calib.c:111-119 | They need not: a run with one write, one lost clearing and two calibrations. |
| `EscProtocol.StaleMaximum` | firmware/src/actuator/motor.c:72-101 | A run in which an armed iteration with a silent mixer repeats full throttle left over from calibration. |
| `EscHistory.RunAccounts` | firmware/src/actuator/esc_calib.c:94-298 | Over every run: a hold flag is witnessed by frames of this boot, and a queued request, a marker or a boot that found one goes back to a held gesture. |
| `EscHistory.MaximumNeedsHeldGesture` | firmware/src/actuator/esc_calib.c:172-298 | A motor iteration that drives calibration output is preceded by a boot, since ended by a power cut, whose frames held the entry gesture in STANDBY for 1500 true ticks. |
| `Ibus.AcceptedIsFrame` | firmware/src/comm/ibus.c:73-95 | With 31 bytes in progress the last is accepted exactly when the 32 bytes are a frame: 0x20 0x40 and the right checksum. |
| `Ibus.Receiver.Init` | firmware/src/comm/ibus.c:26-32 | Nothing is in progress afterwards, and the caller's channels and failsafe flag are cleared if given. |
| `Ibus.Receiver.ParseByte` | firmware/src/comm/ibus.c:35-100 | The state machine on its buffer refines the stepper on the packet in progress, in result, channels and failsafe flag. |
| `IbusStream.AcceptedAreLast32` | firmware/src/comm/ibus.c:35-100 | On every stream, true is returned only when the last 32 bytes are a frame, and the channels are the low 12 bits of its pairs. |
| `IbusStream.NoOverlap` | firmware/src/comm/ibus.c:93-94 | Two accepted frames never share a byte. |
| `IbusStream.Recovers` | firmware/src/comm/ibus.c:35-100 | From any state the receiver is back in WAIT_START within 32 bytes less those in progress, 31 at most. |
| `IbusStream.EncodedIsFrame` | firmware/src/comm/ibus.c:73-87 | Encoding channels below 4096 gives a frame that decodes to them. |
| `IbusStream.StreamDecodes` | firmware/src/comm/ibus.c:35-100 | Any sequence of encoded frames between gaps free of 0x20 decodes to exactly that sequence. |
| `IbusStream.FrameMeans` | firmware/src/comm/ibus.c:73-87 | A frame is 0x20 0x40, the checksum in its last two bytes, and the fourteen channels the low 12 bits of the little-endian pairs. |
| `IbusStream.DamagedNotAccepted` | firmware/src/comm/ibus.c:35-100 | Such a damaged frame is not accepted at any of its 32 bytes. |
| `Crc32.TurnBijective` | tools/analysis/sim_log_to_csv.py:59-63 | One bit step is a bijection on 32-bit registers, with its inverse given. |
| `Crc32.Generator` | tools/analysis/sim_log_to_csv.py:61-62 | The bit carried out brings in the generator polynomial, exponents 26, 23, 22, 16, 12, 11, 10, 8, 7, 5, 4, 2, 1 and 0. |
| `Crc32.TimesX` | tools/analysis/sim_log_to_csv.py:59-63 | Otherwise a bit step is a shift, so that it is multiplication by x modulo the generator. |
| `Crc32.ChecksumOfZeros` | tools/analysis/sim_log_to_csv.py:54-64 | The checksum of four zero bytes. |
| `Crc32.Stm32Crc32` | tools/analysis/sim_log_to_csv.py:54-64 | The byte-wise loop computes the bit-serial register of the message. |
| `Crc32.BurstDetected` | tools/analysis/sim_log_to_csv.py:54-64 | Two bit streams that differ only within 32 consecutive bits leave different registers, whatever surrounds the burst. |
| `Crc32.MessageBurstDetected` | tools/analysis/sim_log_to_csv.py:54-64 | Two messages that differ only within 32 consecutive bits, at any bit alignment, have different checksums. |
| `Crc32.FourBytesDetected` | tools/analysis/sim_log_to_csv.py:54-64 | In particular for any four consecutive bytes and messages of every length. |
| `Crc32.WordAtOnce` | tools/analysis/sim_log_to_csv.py:57-63 | Four byte steps equal adding the whole word and taking 32 bit steps. |
| `SimLog.PacketRoundTrip` | tools/analysis/sim_log_to_csv.py:122-133 | A written packet has a header, its announced length and its seal, and reads back as itself. |
| `SimLog.IntactExactly` | tools/analysis/sim_log_to_csv.py:120-129 | A packet is intact exactly if its bytes are a header, an announced length that fits and the little-endian checksum of what precedes. |
| `SimLog.FieldsAt` | tools/analysis/sim_log_to_csv.py:122-133 | It is read with type, count, device, little-endian stamp and payload where the bytes have them. |
| `SimLog.ParseFrames` | tools/analysis/sim_log_to_csv.py:114-139 | The index loop yields exactly the packets of the recursive reading of the log. |
| `SimLog.PacketsStart` | tools/analysis/sim_log_to_csv.py:120-137 | What is yielded is the packets at the places the index stops at and finds intact. |
| `SimLog.FoundExactly` | tools/analysis/sim_log_to_csv.py:120-139 | An intact packet is found, or lies inside one that is, if and only if no position the index visits at or before it is one where the reader gives up: too near the end, or a header that announces more than is left. |
| `SimLog.FoundBefore` | tools/analysis/sim_log_to_csv.py:120-126 | The reader gives up in one place only, and finds exactly the intact packets before it. |
| `SimLog.StrayHeaderHides` | tools/analysis/sim_log_to_csv.py:122-126 | Three stray bytes in front of a packet make it unfindable: a concrete family of inputs. |
| `SimLog.CleanLog` | tools/analysis/sim_log_to_csv.py:120-139 | A clean log reads back exactly if and only if its last packet has a payload; otherwise exactly that last packet is missing. |
| `SimLog.DamageNoticed` | tools/analysis/sim_log_to_csv.py:129-129 | Any change within four consecutive bytes before the seal breaks the seal. |
| `Splitter.SplitAppend` | tools/telemetry/hslog_pull.py:65-85 | For any stable rule, splitting a buffer and then the rest with more bytes is splitting the whole. |
| `Splitter.ChunkingIrrelevant` | tools/telemetry/hslog_pull.py:65-104 | For any stable rule, every cut of a stream into chunks gives the frames and the leftover of the whole. |
| `Splitter.NothingMissed` | tools/telemetry/hslog_pull.py:65-85 | Behind the leftover every position where a frame could be taken lies in a frame that was taken. |
| `Splitter.WholeFramesComeOut` | tools/telemetry/hslog_pull.py:65-85 | Acceptable frames between ignorable gaps come out exactly, in order, with nothing left. |
| `NavLinkFrames.CheckedStable` | tools/telemetry/hslog_pull.py:65-84 | The checking splitter decides progress and never changes a decision when more bytes arrive. |
| `NavLinkFrames.UncheckedStable` | tools/hwtest/run.py:102-120 | The same for the bench splitter. |
| `NavLinkFrames.LeftoverBounded` | tools/telemetry/hslog_pull.py:69-85 | Both leftovers are shorter than one maximal frame. |
| `NavLinkFrames.LeftoverStarts` | tools/telemetry/hslog_pull.py:67-85 | A leftover is empty or begins with the sync byte. |
| `NavLinkFrames.CleanStream` | tools/hwtest/run.py:96-120 | On a clean link both splitters return exactly the frames sent. |
| `NavLinkReaders.TallyCounts` | tools/telemetry/hslog_pull.py:77-81 | Each counter is the number of frames of that name, and the latest value is that of the last of them. |
| `NavLinkReaders.SentRoundTrip` | tools/hwtest/run.py:96-120 | Headers and payloads written out field by field, between gaps, come back as the frames sent, and each message number is that of its three id bytes, the low one first. |
| `NavLinkReaders.TelemetryReader.ParseFrames` | tools/telemetry/hslog_pull.py:55-85 | The buffer is trimmed to the splitter's leftover and the tally advanced by its frames. |
| `NavLinkReaders.TelemetryReader.ReadAll` | tools/telemetry/hslog_pull.py:95-104 | However the bytes arrive, tally and leftover are those of the whole stream. |
| `NavLinkReaders.BenchReader.IterFrames` | tools/hwtest/run.py:96-120 | The messages yielded are those of the whole stream, independent of chunking. |
| `Download.PassReachesFrontier` | tools/telemetry/hslog_pull.py:151-155 | From the previous frontier, one pass after one more chunk reaches the new frontier. |
| `Download.FrontierUnique` | tools/telemetry/hslog_pull.py:153-155 | There is only one such point. |
| `Download.RunKeeps` | tools/telemetry/hslog_pull.py:112-177 | Both hold over every run of messages that agree with the file. |
| `Download.AcceptedExactly` | tools/telemetry/hslog_pull.py:138-152 | A chunk is accepted exactly if an INFO came before it and it lies within the file. |
| `Download.CursorNeverDecreases` | tools/telemetry/hslog_pull.py:153-155 | The cursor never decreases. |
| `Download.CursorIsLongestPrefix` | tools/telemetry/hslog_pull.py:146-155 | The cursor is the longest prefix covered by chunks that arrived within the file after an INFO, under any loss, duplication, overlap and reordering. |
| `Download.PrefixCorrectExactly` | tools/telemetry/hslog_pull.py:138-150 | The prefix is the file's if and only if every byte below the cursor was brought by a chunk since the last INFO or is zero in the file. |
| `Download.PrefixCorrect` | tools/telemetry/hslog_pull.py:138-177 | With one INFO the prefix is always the file's. |
| `Download.SecondInfoWipes` | tools/telemetry/hslog_pull.py:138-139 | With two INFOs it need not be: a concrete run returns wrong bytes. |
| `Download.BufferLength` | tools/telemetry/hslog_pull.py:146-150 | Over every run the buffer has the length the last INFO announced if and only if every chunk accepted since had as many bytes as its length field said. |
| `Download.ShortChunkShrinks` | tools/telemetry/hslog_pull.py:146-155 | A concrete run in which a short chunk leaves the buffer shorter than the cursor. |
| `Download.Downloader.Handle` | tools/telemetry/hslog_pull.py:130-155 | One message updates buffer, list and cursor as the step over which the run results are proved. |
| `Download.Downloader.BoundedDownload` | tools/telemetry/hslog_pull.py:112-177 | Complete, incomplete and rejected are told apart exactly, and with one INFO the bytes returned are a prefix of every file the messages agree with. |
| `RingLog.RunKeepsInv` | firmware/include/storage/imu_hs_log.h:83-89 | Hence every run does. |
| `RingLog.LiveSlotsDistinct` | firmware/include/storage/imu_hs_log.h:202-212 | Live slots carry pairwise distinct numbers, and number order is write order. |
| `RingLog.CutCosts` | firmware/include/storage/imu_hs_log.h:83-89 | However often the ring has wrapped: what it holds is from the last n + b·cuts writes, and of those at most b·cuts are lost, for any bound b on the hint lag at a cut. |
| `RingLog.MarginExact` | firmware/include/storage/imu_hs_log.h:544-547 | The number after a resume is new and larger than all before it if and only if the next number was at most 32 ahead of the hint; otherwise it has been used before. |
| `RingLog.LostHintsRepeat` | firmware/src/storage/imu_hs_log.c:810-850 | For every ring size: hints that do not reach the card, 33 writes and a cut, and a number is used twice. |
| `RingLog.LostBootHintRepeats` | firmware/src/storage/imu_hs_log.c:1253-1256 | For every ring size: one hint rewrite that fails at boot is enough. |
| `RingLog.DurableHintsBound` | firmware/include/storage/imu_hs_log.h:537-542 | If every hint rewrite reaches the card, no cut finds it more than 16 frames behind. |
| `RingLog.NoCutNoGap` | firmware/include/storage/imu_hs_log.h:202-216 | Hence after any number of laps without a cut. |
| `RingLog.RingWriter.FlushPreamble` | firmware/src/storage/imu_hs_log.c:810-821 | The hint is rewritten or not as the file system answers, and the counter restarts once written. |
| `RingLog.RingWriter.RingWrite` | firmware/src/storage/imu_hs_log.c:826-850 | A placed sector advances number, slot and lap and every sixteenth rewrites the hint; a failed one changes nothing. |
| `RingLog.OlderIsForeign` | firmware/src/storage/imu_hs_log.c:1229-1251 | Starting over an older file, none of its frames carries the new sentinel. |
| `RingLog.PickGeneration` | firmware/src/storage/imu_hs_log.c:1229-1251 | The generation chosen when the ring starts over. |
| `RingLog.RingWriter.BootInit` | firmware/src/storage/imu_hs_log.c:1182-1257 | A usable header resumes the ring at the hint with the margin added; a header with a slot outside the ring, an older one or none starts it over, as a new ring if no slot carries its sentinel; the hint is rewritten or not as the file system answers. |
| `Generations.GenerationsDiffer` | firmware/src/storage/imu_hs_log.c:1239-1250 | A new generation's sentinel differs from the old one's if and only if the old low byte is not 0xFF, and no generation chosen has that low byte. |
| `RingReader.Decode` | tools/telemetry/hslog.py:156-203 | From the bytes of the file: sorted, and exactly the slots the file reaches whose bytes carry the sentinel, the frame length and a known type (a block: of a declared stream, and fitting), each as the kind, number and tag its bytes say; and the gaps. A bad slot never ends the reading. |
| `RingReader.ListedExactly` | tools/telemetry/hslog.py:157-192 | A slot is kept exactly if its bytes meet that condition, and it is read as its bytes say. |
| `RingReader.RingListed` | tools/telemetry/hslog.py:157-192 | So the frames read are exactly the listed slots, none twice and none missing. |
| `RingReader.GapsExactly` | tools/telemetry/hslog.py:198-199 | A pair is reported exactly if it is the numbers of two neighbouring frames that are not consecutive. |
| `RingReader.StampedReads` | firmware/src/storage/imu_hs_log.c:826-834 | A sector the writer has stamped reads back with exactly those stamps, and otherwise as prepared. |
| `RingReader.WrittenShows` | tools/telemetry/hslog.py:157-192 | A card written sector by sector shows the ring to the reader. |
| `RingReader.SortedIsWriteOrder` | tools/telemetry/hslog.py:194-194 | For every run, the decoded list is the surviving writes in write order. |
| `RingReader.CutShowsAsGap` | tools/telemetry/hslog.py:196-199 | Every cut with survivors on both sides is reported as a gap between the two frames next to it, as long as the hint never lagged by the whole margin. |
| `RingReader.NoCutNoGapReported` | tools/telemetry/hslog.py:196-199 | Without a cut no gap is reported, however often the ring wrapped. |
| `RingReader.HealthyFile` | tools/telemetry/hslog.py:156-203 | The same from the bytes of the file: every frame decoded is one that was written, with its kind, number and tag. |
| `RingReader.HealthyRecording` | firmware/include/storage/imu_hs_log.h:202-216 | All at once for a recorder whose hints reach the card: write order, nothing older than n + 16·cuts writes and at most 16·cuts of those lost, every cut visible. |
| `Sessions.SegmentsCut` | tools/telemetry/hslog.py:206-249 | Segments give back the frames in order; each has one tag, consecutive numbers and a SESSION frame at most first; each boundary is called for. |
| `Sessions.GroupMeans` | tools/telemetry/hslog.py:206-249 | Each group has its segment's tag, its SESSION frame as anchor, exactly its blocks and its events in the order of their numbers, and is truncated exactly if the next segment does not carry on the numbers. |
| `Sessions.NothingLost` | tools/telemetry/hslog.py:206-249 | The groups returned hold every block and event frame exactly once, in order. |
| `Sessions.GroupsNew` | tools/telemetry/hslog.py:231-240 | A new group marks the one before it truncated exactly when a gap ended it. |
| `Sessions.Sessions` | tools/telemetry/hslog.py:206-249 | The loop returns the groups of those segments that hold data. |
| `Timebase.TimesOrdered` | tools/telemetry/hslog.py:297-331 | Whatever the stamps, times never go back and stay within what has elapsed. |
| `Timebase.OffsetIsFloor` | tools/telemetry/hslog.py:318-322 | A record's share of its block's span is its proportion of it, rounded down. |
| `Timebase.ElapsedExact` | tools/telemetry/hslog.py:297-325 | The elapsed time is the true time, through any number of rollovers, less exactly what the breaks leave out: each gap beyond one interval; and the breaks are counted. |
| `Timebase.RecordsExact` | tools/telemetry/hslog.py:318-322 | Every record of every block is dated by its true proportion of the block's true span, up to that. |
| `Timebase.Samples` | tools/telemetry/hslog.py:295-326 | The loop computes those times and breaks. |
| `SymSolve.SolveSym` | tools/sysid/sysid_fit_oe.py:89-107 | An answer is the one and only solution of the system as passed in; None means that its matrix takes a vector with a unit entry to less than 1e-300 in every row. |
| `LeastSquares.Subdivides` | tools/sysid/sysid_fit_oe.py:110-127 | The plant step is exact: holding the input over two parts of a sample gives the state of the whole. |
| `LeastSquares.HoldIsOnly` | tools/sysid/sysid_fit_oe.py:122-127 | A step is the only one that adds that much and brings the acceleration nearer the input by the given factor. |
| `LeastSquares.SimulationConserves` | tools/sysid/sysid_fit_oe.py:122-127 | So over any run that quantity changes by exactly the integral of the input. |
| `LeastSquares.ModelIsSimulation` | tools/sysid/sysid_fit_oe.py:110-128 | Every simulation is the gain times the forced response plus the initial acceleration times the homogeneous one plus the initial rate. |
| `LeastSquares.Basis` | tools/sysid/sysid_fit_oe.py:110-128 | The loop computes the two responses of the plant, sample by sample. |
| `LeastSquares.Pythagoras` | tools/sysid/sysid_fit_oe.py:131-160 | Any other coefficients are worse by exactly the squared size of the change they make to the model. |
| `LeastSquares.LeastOfAll` | tools/sysid/sysid_fit_oe.py:131-160 | So no other four coefficients give a smaller residual, for every sample count and data set. |
| `LeastSquares.FitFixed` | tools/sysid/sysid_fit_oe.py:131-160 | A fit is the unique solution of the normal equations and globally least; no fit means that a combination of the columns with a unit coefficient is orthogonal to all of them, and nothing itself, to within 1e-300. |
| `GoldenSection.PointsReused` | tools/sysid/sysid_fit_oe.py:194-202 | The interior point kept is exactly where the narrower bracket wants one. |
| `GoldenSection.NarrowKeeps` | tools/sysid/sysid_fit_oe.py:193-202 | For any objective, an iteration keeps both points and both values right and shrinks the width by exactly gr. |
| `GoldenSection.NarrowBrackets` | tools/sysid/sysid_fit_oe.py:193-202 | For an objective unimodal inside the bracket and finite at one of the two points it keeps the minimiser inside and one point finite. |
| `GoldenSection.NarrowBracketsExactly` | tools/sysid/sysid_fit_oe.py:193-202 | The minimiser is kept if and only if one of the points is finite or it does not lie before them. |
| `GoldenSection.MinimumLost` | tools/sysid/sysid_fit_oe.py:193-202 | An objective finite only near the lower end loses its minimiser at the first step. |
| `GoldenSection.Refine` | tools/sysid/sysid_fit_oe.py:186-203 | The middle returned is within half the final width of the minimiser. |
| `GoldenSection.GridBrackets` | tools/sysid/sysid_fit_oe.py:186-187 | Its neighbours bracket the minimiser of an objective unimodal over the range searched, at the ends too. |
| `GoldenSection.FiniteNeighbours` | tools/sysid/sysid_fit_oe.py:178-187 | It is enough that the grid minimum and its neighbours are finite. |
| `GoldenSection.Search` | tools/sysid/sysid_fit_oe.py:178-203 | For an objective unimodal over the range searched, possibly infinite towards its ends, whose grid minimum and one of the first two points are finite, the result is within one grid spacing times gr to the number of refinements of the minimiser. |
| `CallGraph.Reachable` | tools/dev/alloc_budget.py:140-148 | Terminates, and returns exactly the functions some walk from a root reaches. |
| `CallPaths.CompleteWhenCallersDone` | tools/dev/alloc_budget.py:177-177 | Once every caller is done all paths into a function have been taken into account. |
| `Multiplicity.Walker.Visit` | tools/dev/alloc_budget.py:164-172 | Lists a function after all it calls, sees nothing unreached, and terminates on cyclic graphs too. |
| `Multiplicity.VisitFacts` | tools/dev/alloc_budget.py:165-168 | A function on the open path has always been seen as well, so the test on the path never decides anything; and only a cycle brings one back. |
| `Multiplicity.FinishingOrder` | tools/dev/alloc_budget.py:174-175 | In an acyclic graph the order holds exactly the reached functions, once each, callees first. |
| `Multiplicity.CallersTaken` | tools/dev/alloc_budget.py:177-177 | Taken backwards, every caller of a function comes before it. |
| `Multiplicity.CountAll` | tools/dev/alloc_budget.py:151-187 | If no reached function can come back to itself, each reached function gets exactly the number of call-site paths from a root with no other root on them; roots always get one. |

## Left out

- Float32 rounding, NaN and infinity: all numeric results are about exact arithmetic with the stated bounds.
- GoldenSection.Search: the objective is any function of the logarithm of the time constant, finite or infinite; the exponential and the packaging of the result (gain sign, fit quality, gains) are not part of it.
- LeastSquares.FitFixed: the pole is any value whose logarithm is not zero; that it comes from a time constant is not used.
- SymSolve.SolveSym: at least one unknown; the program always has four.
- Absent arguments: the null-argument exits of the six-pose fit and of the RC frame service.
- Accumulating the normal equations from samples, and the calibration task around the fits.
- RingLog.RingWriter.BootInit: a card that cannot be opened leaves no recorder and is not modelled.
- RingLog.RunKeepsInv: a run is one file's, from when the ring last started over; sequence numbers are unbounded; the 32-bit wrap after 2³² frames is not modelled.
- RingReader.Decode: the ring's place in the file, the sentinel and the stream table are given; header, preamble and FMT parsing and the counter of skipped frame types are not modelled, and what is made of a frame's remaining bytes is an arbitrary function of them. The sort is an insertion into an ordered list.
- Timebase.Samples: block times in clock counts; the field values and the division by the clock rate are not modelled.
- Download.Downloader.BoundedDownload: acknowledgements, the reopen timer and the timeout are the choice of the polls; messages of other sessions are one kind of event.
- NavLinkFrames.CheckedStable: the frame codec is a submodule and not part of this model; acceptance is an arbitrary predicate of the frame's bytes, and header length 10, two checksum bytes and sync byte 0x56 are those the bench reader spells out.
- EscProtocol.RunKeepsInv: the storage owner is nondeterministic (a write may reach the card or not, be reported or not, be retried or given up); whether the commit counter that announces "ON CARD" belongs to this write is not modelled, nor are log messages and the telemetry queue.
- Multiplicity.CountAll: path counts are claimed when no cycle is reached; on cyclic ones only termination and the roots' count of one.
- Reading the disassembly, the budget arithmetic and its report; CSV output and the per-type payload decoders of the log tool.
- Attitude, rate and height control, estimators, filters, drivers, task creation and stack sizes.
