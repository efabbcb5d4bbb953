# zapping-ants in Dafny

zapping-ants aims a laser at ants. A camera watches a patch of ground. A
C++ vision program (`units/`) finds dark blobs, tracks them as ants, and
asks for mirror moves by writing a 14-byte command record into shared
memory. A Python consumer (`python/clicker.py`) polls that record and
drives an EiBotBoard stepper controller through the motor driver in
`python/eibot.py`, which plans trapezoidal step ramps and turns them into
board commands. Tools under `movies/` work on recorded video: an
ant-clicking viewer, a blob finder over a bit-vector of checked pixels,
and a snapshot cutter.

This project models the core of that system and proves properties of it.
One Dafny module stands for each core source file:

| module | source | form |
|---|---|---|
| `Ramp` | `make_ramp` of python/eibot.py | a method with its loops, proved against a planning function |
| `DeviceLink` | the serial reply handling of python/eibot.py | functions over an input byte sequence and an output command log |
| `EiBot` | `class motor` of python/eibot.py | a class whose methods are proved equal to functions on the motor's state |
| `Clicker` | python/clicker.py | the decoder as functions, the consumer as a class |
| `Hw` | the command record, `keepout` and the `hw` class of units/hw.cpp | a class over the record's fields |
| `Backlash` | the `backlash` step list of units/hw.cpp | a class over real linked nodes |
| `Util` | units/util.cpp | classes over ring-buffer arrays |
| `Ants` | units/ants.cpp | functions on the ant list, and a tracker class |
| `Units` | the state machine in `main` of units/units.cpp | a controller class with one method per state |
| `BlobsUnits` | units/blobs.cpp | in-place flood fill over a byte grid |
| `BlobsMovies` | movies/blobs.cpp | a `BitVec` class and a flood fill over it |
| `FindAnts` | `process_keys` of movies/find_ants.cpp | a loop over key polls |
| `Player` | units/player.cpp | the size table, the block painter and a replay-cursor class |
| `Snap` | `find_cg` and the window tests of movies/snap.cpp | nested loops, proved against a scan-order function |
| `Common` | shared definitions | bytes, 32-bit wrap-around, sums, `Option` |

Time, randomness, the serial port, the shared-memory mailbox and the
camera become inputs. Values that C leaves uninitialised also become
inputs, so the model does not depend on them having any particular value.

## Model

| member | source | states |
|---|---|---|
| Ramp.Accel | python/eibot.py:216-229 | the acceleration loop ends with a positive interval step count or nothing left over |
| Ramp.Accelerate | python/eibot.py:206-229 | the first loop of make_ramp produces the plan (prefix, final `cur_steps`, leftover) that `PlanFor` defines |
| Ramp.MakeRamp | python/eibot.py:206-244 | when both loops stop (positive acceleration and accel_deltat and a cruise count of at least 1, or a zero move whose first interval is not negative) make_ramp returns `RampOf(steps)`; its magnitudes add up to \|steps\|; `make_ramp(0)` is empty |
| Ramp.AccelOk | python/eibot.py:216-229 | the plan's prefix holds the step counts of intervals 1, 2, ... below the cruise rate; twice their sum plus the leftover is the target; the final step count is the cruise count, or the next interval's with at most twice it left over |
| Ramp.AccelKeeps | python/eibot.py:216-230 | the acceleration loop only appends: the plan's prefix extends the prefix built so far |
| Ramp.AccelTurn | python/eibot.py:216-230 | a turn that neither reaches half the distance nor the cruise rate appends the interval's step count, adds twice it to the total, and strictly raises the commanded rate, so the loop goes on with the same plan |
| Ramp.AccelStops | python/eibot.py:221-227 | when the loop stops, the prefix is the one built so far and the plan has the properties `AccelOk` states |
| Ramp.AccelInvStep | python/eibot.py:226-228 | appending one more interval below half the distance and below the cruise rate keeps the loop invariant |
| Ramp.PlanFacts | python/eibot.py:216-229 | the plan for any target has the properties `AccelOk` states, starting from an empty prefix |
| Ramp.CurStepsMono | python/eibot.py:217-220 | the step count of an interval never decreases as the interval index grows |
| Ramp.BelowCruise | python/eibot.py:219-226 | before the cruise rate an interval moves at most the cruise step count |
| Ramp.MiddleShape | python/eibot.py:231-237 | the remainder chunks are all `cur_steps` except a last one in (0, cur_steps], they add up to the leftover, and there are none exactly when the leftover is 0 |
| Ramp.RampSum | python/eibot.py:206-244 | the magnitudes of make_ramp(s) add up to exactly \|s\| |
| Ramp.RampTotal | python/eibot.py:206-244 | the signed entries of make_ramp(s) add up to s |
| Ramp.RampZero | python/eibot.py:221-243 | make_ramp(0) is the empty list |
| Ramp.RampSigns | python/eibot.py:241-243 | every entry has the sign of the requested step count (or is 0) |
| Ramp.RampShape | python/eibot.py:229-243 | the result is prefix ++ middle ++ reverse(prefix), negated for negative s; the prefix is non-decreasing and bounded by the final and the cruise counts; the middle is `cur_steps` repeated with a last chunk in (0, cur_steps] |
| Ramp.RampNotUnimodal | python/eibot.py:231-240 | with the default parameters a 10-step move is planned as [1, 2, 3, 1, 2, 1]: the remainder can dip below the mirrored prefix |
| Ramp.NoAccelStalls | python/eibot.py:216-229 | with acceleration 0 and a positive step rate every interval of a nonzero move has step count 0 and stays below the cruise rate, so the acceleration loop never stops |
| Ramp.ZeroCruiseStalls | python/eibot.py:216-237 | with steps_per_sec 1 the cruise count is 0: a 10-step move leaves the first loop at the cruise rate with 10 steps to go, and the remainder loop takes 0 of them per turn, so it never stops |
| DeviceLink.DigitsRoundTrip | python/eibot.py:149 | the decimal digits a command prints for a natural number read back as that number |
| DeviceLink.DecimalRoundTrip | python/eibot.py:149-172 | the text of every integer in a command reads back as that integer, sign included |
| DeviceLink.CheckMatches | python/eibot.py:104-123 | chk_reply(s) succeeds exactly when the next \|s\| bytes are s, and then consumes exactly those bytes |
| DeviceLink.DiscardFails | python/eibot.py:109-120 | after a mismatch chk_reply reports failure whatever it discards |
| DeviceLink.DiscardStops | python/eibot.py:111-120 | the resync loop stops right after a newline or with nothing waiting, and leaves a suffix of the input |
| DeviceLink.ReadChars | python/eibot.py:87-96 | a get_chars(n) that does not block returns n characters |
| DeviceLink.ReadCharsTakes | python/eibot.py:87-96 | get_chars(n) returns the next n bytes and consumes them when they are there |
| DeviceLink.SendOkShape | python/eibot.py:125-132 | send_ok writes the command between one and three times |
| DeviceLink.SendOkFirstTry | python/eibot.py:125-130 | an "OK\r\n" reply stops send_ok after one write, consuming the reply |
| DeviceLink.SendOkGivesUp | python/eibot.py:125-132 | after three bad replies the command was written three times and send_ok still returns normally |
| DeviceLink.SendOkAnswered | python/eibot.py:125-130 | with OK replies waiting, send_ok writes once and consumes one reply |
| EiBot.WithParamGet | python/eibot.py:331-333 | storing a parameter changes that key and no other |
| EiBot.Ramp1Delivers | python/eibot.py:262-266 | ramp1 with the board answering OK writes at most len(make_ramp) moves of `accel_deltat` ms, each the command format_sm_cmd builds with a nonzero count on the named axis (1 for `mx == 1`, 2 otherwise) and 0 on the other, adding up to the requested steps on that axis |
| EiBot.FormatSmCmdOf | python/eibot.py:147-152 | an SM command that moves only the axis of motor `mx` is what format_sm_cmd writes for that motor and its step count |
| EiBot.SmAllAsSm2All | python/eibot.py:147-162 | writing a ramp on one axis with sm_cmd does what sm2_cmd does with zeros on the other axis |
| EiBot.StepsToMsNearest | python/eibot.py:134-136 | steps_to_ms fails (Python's ZeroDivisionError) exactly when steps_per_sec is 0; for a positive rate it is the duration in milliseconds rounded to the nearest integer, halves up; for a negative rate it is the truncation toward zero of the negative quotient plus a half |
| EiBot.BacklashFollowsSetParam | python/eibot.py:138-145 | after set_param a positive move has no backlash, any other move the value just stored under that axis' backlash key, and storing any other key leaves the backlash as it was |
| EiBot.Pad | python/eibot.py:254-257 | zero padding makes a ramp as long as the longer of the two |
| EiBot.ReadingStopped | python/eibot.py:104-123 | once a read has blocked or raised, no further reply is read |
| EiBot.SendOkOnlySends | python/eibot.py:125-132 | send_ok writes its command one to three times and changes nothing else of the motor |
| EiBot.SmCmdOnlySends | python/eibot.py:154-162 | sm_cmd changes nothing but the link and the enable latch |
| EiBot.SmAllOnlySends | python/eibot.py:262-266 | a ramped single-axis move changes nothing but the link and the latch |
| EiBot.EnableLatch | python/eibot.py:154-162 | a moving sm_cmd sets the latch when it completes; with the latch clear its first write is the enable command, with it set it writes only the move |
| EiBot.EnableOnceThenMove | python/eibot.py:154-162 | with the board answering OK, the first move after the latch is cleared writes exactly one enable command and then the move, and the next move writes only the move |
| EiBot.LatchCleared | python/eibot.py:174-176 | set_param and a completed motors_off clear the latch; motors_off writes "EM,0,0" one to three times |
| EiBot.EnableIgnoresM2Mode | python/eibot.py:157-171 | the enable command repeats the axis-1 mode; the axis-2 mode is never sent ("EM,1,1" with mode 2 on axis 2) |
| EiBot.SetLaserSends | python/eibot.py:317-323 | set_laser(v) writes "SP,0" for on and "SP,1" for off, records v when the link survives, and changes no position, latch or parameter |
| EiBot.ToggleIsSetOpposite | python/eibot.py:308-323 | toggle_laser is set_laser of the opposite state |
| EiBot.MovedToFacts | python/eibot.py:268-306 | the move methods' common tail ramps by the difference and records the new position of the moved axis only, and only when the link survived |
| EiBot.MoveInFloor | python/eibot.py:268-284 | move_in leaves the axis at pos - steps, or at its minimum when that is below it; the other axis, the parameters and the laser are untouched |
| EiBot.MoveOutUnbounded | python/eibot.py:274-290 | move_out adds the full step count whenever pos - steps is at most the maximum, so a non-negative move can go past the maximum |
| EiBot.ClampRange | python/eibot.py:292-306 | the clamp of move_abs lands in [min, max] when that range is non-empty and keeps in-range values |
| EiBot.MoveAbsClamps | python/eibot.py:292-306 | move_abs(v) sets the position to v clamped to [min, max] and ramps by the difference |
| EiBot.Sm2Cmds | python/eibot.py:164-172 | the per-index sm2_cmd calls write at most one command per index |
| EiBot.Sm2CmdsSums | python/eibot.py:164-172 | the written moves skip index pairs that are both 0, carry the given duration, and their per-axis deltas add up to the two ramps' totals |
| EiBot.PadSum | python/eibot.py:254-257 | zero padding does not change a ramp's total |
| EiBot.Sm2CmdAnswered | python/eibot.py:164-172 | with the latch set and an OK waiting, one sm2_cmd writes its move, if any, once |
| EiBot.Sm2AllStep | python/eibot.py:259-260 | one turn of ramp2's loop with an OK waiting writes the index's move and continues with the rest |
| EiBot.Sm2AllAnswered | python/eibot.py:259-260 | with the latch set and enough OK replies, ramp2's loop writes exactly the non-zero index pairs |
| EiBot.Ramp2Delivers | python/eibot.py:246-260 | ramp2 with ms == 0 and the board answering OK writes at most max(l1, l2) moves of `accel_deltat` ms, none of them 0,0, whose per-axis deltas add up to m1 and m2 |
| EiBot.Ramp2Direct | python/eibot.py:246-249 | ramp2 with ms > 0 writes a single "SM,ms,m1,m2" one to three times, and nothing for 0,0 |
| EiBot.FieldAfterJunk | python/eibot.py:189-196 | a reading whose tag is wrong still yields the four characters after the resync |
| EiBot.AnalogIgnoresTags | python/eibot.py:184-200 | get_analog ignores what chk_reply returns: with every tag replaced by a junk line it still yields the three readings and the link keeps running |
| EiBot.LastFields | python/eibot.py:197-199 | the tail of the analog reply: eight characters read blind, then the final check |
| EiBot.Motor.constructor | python/eibot.py:30-54 | positions 0, latch clear, laser off, the default parameters, nothing written |
| EiBot.Motor.Send | python/eibot.py:82-85 | the command is appended to the log and nothing else changes |
| EiBot.Motor.ChkReply | python/eibot.py:104-123 | the reply check and its effect on the link are those of `CheckReply`; nothing else changes |
| EiBot.Motor.GetChars | python/eibot.py:87-96 | get_chars reads as `Get` does; nothing else changes |
| EiBot.Motor.SendOk | python/eibot.py:125-132 | the new state is `SendOkS` of the old one |
| EiBot.Motor.EnableIfNeeded | python/eibot.py:157-161 | the new state is `EnsureEnabled` of the old one |
| EiBot.Motor.SmCmd | python/eibot.py:154-162 | the new state is `SmCmdS` of the old one |
| EiBot.Motor.Sm2Cmd | python/eibot.py:164-172 | the new state is `Sm2CmdS` of the old one |
| EiBot.Motor.MotorsOff | python/eibot.py:174-176 | the new state is `MotorsOffS` of the old one |
| EiBot.Motor.ReadField | python/eibot.py:189-196 | one tag check and four characters, as `Field4` |
| EiBot.Motor.GetAnalog | python/eibot.py:184-200 | the readings and the new state are those of `GetAnalogS` |
| EiBot.Motor.ResetCounts | python/eibot.py:202-204 | both positions become 0 and nothing else changes |
| EiBot.Motor.Ramp1 | python/eibot.py:262-266 | the new state is `Ramp1S` of the old one |
| EiBot.Motor.Ramp2 | python/eibot.py:246-260 | the new state is `Ramp2S` of the old one |
| EiBot.Motor.Sm2Each | python/eibot.py:259-260 | the loop of ramp2 gives the state `Sm2All` describes |
| EiBot.Motor.RampTo | python/eibot.py:268-306 | the move methods' tail gives the state `MovedTo` describes |
| EiBot.Motor.MoveIn | python/eibot.py:268-284 | the new state is `MoveInS` of the old one |
| EiBot.Motor.MoveOut | python/eibot.py:274-290 | the new state is `MoveOutS` of the old one |
| EiBot.Motor.MoveAbs | python/eibot.py:292-306 | the new state is `MoveAbsS` of the old one |
| EiBot.Motor.ToggleLaser | python/eibot.py:308-315 | the new state is `ToggleLaserS` of the old one |
| EiBot.Motor.SetLaser | python/eibot.py:317-323 | the new state is `SetLaserS` of the old one |
| EiBot.Motor.SetParam | python/eibot.py:331-333 | the new state is `SetParamS` of the old one |
| Clicker.LittleEndianBound | python/clicker.py:37-43 | n unpacked bytes give a value below 256^n |
| Clicker.LittleEndianSnoc | python/clicker.py:37-43 | each further byte is added at the next place value, `ord(b) << shift` |
| Clicker.DecodeComsFields | python/clicker.py:53-63 | unpack_coms reads the magic from bytes 0-3, then ms, m1, m2, flags and ok as two-byte little-endian fields at 4, 6, 8, 10 and 12; m1 is negated iff flag 0x08 is set and m2 iff flag 0x10 is |
| Clicker.SwitchBands | python/clicker.py:69-94 | switch_up iff the reading is below 341 (1024 / 3); switch_down iff it is in 342..682; never both; neither exactly at 341 or above 682; button_pressed is switch_up |
| Clicker.CommandConsumes | python/clicker.py:110-131 | a record is acted on only when byte 12 is 1; acting on it sets byte 12 to 0, leaves every other byte as it was, and only appends to the calls made |
| Clicker.LaserBit | python/clicker.py:115-128 | flag 0x01 with the laser off gives set_laser(True) first; with it on, no set_laser(True); a clear bit gives set_laser(False) first; the laser ends on iff 0x01 is set and 0x04 is not |
| Clicker.LaserOnce | python/clicker.py:115-118 | with 0x01 set over a dark laser and no shutdown, exactly one set_laser(True) and no set_laser(False) |
| Clicker.ShutdownBit | python/clicker.py:122-130 | a missing 0x02 calls motors_off; 0x04 turns laser and motors off and ends the loop; ramp2 is still called, last, exactly when a step count is nonzero |
| Clicker.ButtonMachine | python/clicker.py:150-162 | every pressed iteration turns laser and motors off; pressed in state 0 sleeps 3 s and arms; pressed in state 1 shuts the system down and disarms; released in state 1 restarts the service and disarms; released in state 0 does nothing |
| Clicker.StepPolls | python/clicker.py:132-162 | every iteration reads the analog inputs and handles both switches and the button, whatever the record said, without touching the record |
| Clicker.Consumer.constructor | python/clicker.py:29-35 | the consumer starts with the laser off and no calls made |
| Clicker.Consumer.Unpack | python/clicker.py:37-43 | unpack(s, n) returns the little-endian value of bytes s..s+n-1, below 256^n, and the next offset s + n |
| Clicker.Consumer.UnpackComs | python/clicker.py:53-67 | unpack_coms returns `DecodeComs` of the record's bytes |
| Clicker.Consumer.ClearOk | python/clicker.py:50-51 | byte 12 becomes 0 and no other byte changes |
| Clicker.Consumer.Command | python/clicker.py:110-131 | the record-handling half of an iteration gives the state `CommandS` describes |
| Clicker.Consumer.Apply | python/clicker.py:115-130 | the calls made for a decoded record, and the laser and running flags after them, are those of `CommandActs` |
| Clicker.Consumer.ApplyLaser | python/clicker.py:115-121 | the laser-bit calls and the new laser flag are those of `LaserActs` |
| Clicker.Consumer.ApplyRest | python/clicker.py:122-130 | the motors-on, shutdown and ramp calls are those of `RestActs`; the loop goes on iff 0x04 is clear, and the laser flag is cleared when it is set |
| Clicker.Consumer.Switch | python/clicker.py:138-149 | one switch moves its axis out by 1 when up and in by 1 when down, as `SwitchActs` |
| Clicker.Consumer.Button | python/clicker.py:150-162 | the button calls and the new button state are those of `ButtonActs` |
| Clicker.Consumer.Step | python/clicker.py:108-162 | one iteration of run's loop gives the state `StepS` describes |
| Clicker.Consumer.Run | python/clicker.py:101-162 | run starts iff the magic is 0x12344321, changes nothing otherwise, and then iterates as `RunFrom` |
| Hw.Bytes | units/hw.cpp:37-44 | a field is stored as exactly its width in bytes |
| Hw.Encode | units/hw.cpp:37-44 | the record occupies 14 bytes, the size the consumer unpacks |
| Hw.BytesRoundTrip | units/hw.cpp:37-44 | the consumer's little-endian read of a stored field that fits gives the field back |
| Hw.WordBits | units/hw.cpp:56-60 | the consumer's bit tests on the flags word see exactly LASER_ON 0x01, MOTORS_ON 0x02, SHUTDOWN 0x04, M1_NEG 0x08 and M2_NEG 0x10, and the word fits 16 bits |
| Hw.RoundNearest | units/hw.cpp:220-221 | `round` lands within half a unit of its argument, with halves away from zero |
| Hw.RoundOfInteger | units/hw.cpp:220-221 | `round` keeps whole numbers |
| Hw.KeepoutIsOutsideFrame | units/hw.cpp:441-458 | keepout holds exactly when the point scaled by `scale` lies outside 0..1279 by 0..959; at scale 1 the point itself |
| Hw.StartMoveWindow | units/hw.cpp:216-231 | a fake laser reports success and changes nothing; a move that would leave m1 in [-380, 345] or m2 in [-860, 980] is refused and changes nothing; the limits always stay in that window |
| Hw.StartMoveBusy | units/hw.cpp:229-264 | with the window respected and the mailbox busy, the limits advance all the same, the move is reported as failed and the record is untouched |
| Hw.StartMovePosts | units/hw.cpp:232-260 | a posted move has ms 0, the step magnitudes, M1_NEG iff the rounded m1 is negative, M2_NEG iff the unrounded m2 is negative, LASER_ON as asked, ok 1, the other flag bits kept, and the last nonzero move remembered |
| Hw.StartMoveDecodes | units/hw.cpp:216-264 | the consumer's decoding of the record a posted start_move leaves gives back the magic, a zero duration, the rounded signed step counts and the laser bit, and the ok byte reads 1 |
| Hw.DecodesAs | units/hw.cpp:37-60 | decoding the bytes of any record whose fields fit gives back its fields with the signs of the NEG bits applied |
| Hw.SwitchLaserPosts | units/hw.cpp:268-285 | switch_laser on an idle mailbox posts no steps, no sign bits, the laser bit as asked and ok 1, and keeps the limits; a busy mailbox is left alone |
| Hw.ShutdownPosts | units/hw.cpp:415-424 | shutdown leaves no steps and the flags exactly SHUTDOWN, raises ok unless the laser is faked, and the consumer reads the record as "laser off, motors off, stop" |
| Hw.HwUnit.constructor | units/hw.cpp:120-159 | limits 0; the record holds the magic 0x12344321, no steps and only MOTORS_ON; ok is raised unless the laser is faked |
| Hw.HwUnit.SetHome | units/hw.cpp:161-165 | both limits become 0 and nothing else changes |
| Hw.HwUnit.StartMove | units/hw.cpp:216-266 | the new state and the result are those of `StartMoveS` |
| Hw.HwUnit.Post | units/hw.cpp:234-260 | the record becomes `PostMove` of the old one, the last nonzero moves are remembered, and the limits stay |
| Hw.HwUnit.SwitchLaser | units/hw.cpp:268-285 | the new state is `SwitchLaserS` of the old one |
| Hw.HwUnit.Shutdown | units/hw.cpp:415-424 | the new state is `ShutdownS` of the old one |
| Hw.HwUnit.Idle | units/hw.cpp:426-436 | hw_idle reports the mailbox free exactly when ok is 0, the value the consumer's step leaves (`ClearOkMakesIdle`) |
| Hw.ClearOkMakesIdle | python/clicker.py:49-50 | the consumer's step on a posted record (ok 1) leaves exactly the bytes of the same record with ok 0, every other byte as it was, so hw_idle then holds |
| Backlash.StepNode.constructor | units/hw.cpp:460-467 | a new node holds the given location, last moves and steps, and no successor |
| Backlash.StopKeepsActuals | units/hw.cpp:555-581 | the zero-step node stop appends leaves every actuals total unchanged |
| Backlash.StartStopActuals | units/hw.cpp:519-581 | right after start and stop the list is the unlocated move node then the located stop node, and the actuals are the move's own rounded steps |
| Backlash.DeadZoneSkipsMove | units/hw.cpp:583-601 | the move node at the head has no location, so it never counts towards the dead zone |
| Backlash.DeadZoneZero | units/hw.cpp:583-601 | nodes that each moved the laser off both the previous row and column give a zero dead zone |
| Backlash.Backlash.constructor | units/hw.cpp:471-482 | no last moves, no start or target, an empty list and move index 0 |
| Backlash.Backlash.Cleanup | units/hw.cpp:498-517 | the walk over the list forgets it, the start, the target and the last moves, keeping the move index; the list becomes empty |
| Backlash.Backlash.Start | units/hw.cpp:519-535 | the list becomes one node without a location, the start and target are recorded and the move index goes up by 1 |
| Backlash.Backlash.Append | units/hw.cpp:548-567 | a new node is linked behind `ple`, which then points at it |
| Backlash.Backlash.AddCorr | units/hw.cpp:537-553 | a located correction node is appended only when SQL output is on |
| Backlash.Backlash.Stop | units/hw.cpp:555-568 | a located zero-step node is always appended, and `ple` is the last node |
| Backlash.Backlash.Actuals | units/hw.cpp:570-581 | the loop returns the rounded step totals from the given node to the end of the list |
| Backlash.Backlash.DeadZone | units/hw.cpp:583-601 | the loop returns, over consecutive located node pairs from the given node on, the earlier node's axis-2 steps where px is unchanged and its axis-1 steps where py is unchanged |
| Util.SumRSlide | units/util.cpp:59-63 | dropping the oldest value and adding a new one moves the sum by their difference |
| Util.NextSlot | units/util.cpp:65-67 | the write position stays in [0, nitems) |
| Util.NextSlotMod | units/util.cpp:65-67 | the write position advances as (in + 1) mod nitems |
| Util.RingPushFull | units/util.cpp:59-64 | writing the next slot of a full buffer drops the oldest value and adds the new one last |
| Util.RingPushFilling | units/util.cpp:61-64 | writing the next slot of a filling buffer adds the new value last |
| Util.LastPush | units/util.cpp:59-64 | the last min(n+1, nitems) values of the longer history are the last n values, less the oldest when full, plus the new one |
| Util.SlotsPush | units/util.cpp:59-67 | add_item's write keeps the buffer holding the last n values added, oldest first from the write position |
| Util.TotalPush | units/util.cpp:59-63 | add_item's total stays the sum of the last n values added |
| Util.PointTotalPush | units/util.cpp:99-103 | the same for the total of a direction average's points |
| Util.RunningAverage.Empty | units/util.cpp:38-45 | the default constructor has no buffer and holds nothing |
| Util.RunningAverage.constructor | units/util.cpp:47-54 | a fresh buffer of nitems slots, holding nothing |
| Util.RunningAverage.AddItem | units/util.cpp:56-68 | n becomes min(n+1, nitems); in advances modulo nitems; the total is the sum of the last n values added; the buffer must exist and have a slot |
| Util.RunningAverage.Average | units/util.cpp:70-75 | 0 when nothing was added, else the total over n, the mean of the last n values added |
| Util.DirectionAverage.Empty | units/util.cpp:77-84 | the default constructor has no buffer and holds nothing |
| Util.DirectionAverage.constructor | units/util.cpp:86-94 | a fresh buffer of nitems points, holding nothing |
| Util.DirectionAverage.AddItem | units/util.cpp:96-108 | the same n, in and total bookkeeping as the running average, for 2-D points |
| Util.Laser.constructor | units/util.cpp:120-124 | the laser starts in the given state over the given unit |
| Util.Laser.LaserOn | units/util.cpp:126-130 | is_on becomes true and the unit does switch_laser(true) |
| Util.Laser.LaserOff | units/util.cpp:132-136 | is_on becomes false and the unit does switch_laser(false) |
| Ants.PickBest | units/ants.cpp:324-336 | an ant pick_best_ant returns is in the list, has a score above 25 and was seen at most 3 frames ago |
| Ants.PickBestSpec | units/ants.cpp:324-336 | pick_best_ant returns nothing exactly when no ant is eligible; otherwise an eligible ant nearest the laser, and no later eligible ant is as near (ties go to the later ant) |
| Ants.PickBestTie | units/ants.cpp:333 | of two equally near eligible ants the later one is picked |
| Ants.DeleteDeadAppend | units/ants.cpp:308-322 | deleting from a concatenation deletes from each part, so survivors keep their order |
| Ants.DeleteDeadMembers | units/ants.cpp:308-322 | an ant survives, one point down, exactly when its score was above 1, so every score drops by 1 and ants reaching 0 or less go |
| Ants.DeleteDeadKeepsIds | units/ants.cpp:308-322 | deleting dead ants keeps the ids distinct and below the next id |
| Ants.ProcessAntS | units/ants.cpp:257-284 | process_ant changes only the claimed ant, by `Reinforce` |
| Ants.ReinforceCaps | units/ants.cpp:269-281 | the claimed ant gains the blob's score capped at 50, keeps its id, and becomes eligible exactly when that sum is above 25 |
| Ants.ReinforceSamples | units/ants.cpp:257-268 | process_ant always adds a speed sample, adds a heading sample only when the blob is away from `last`, keeps both counts within their windows, stores frame_ticks, and from the first heading sample on the prediction is the extrapolated one |
| Ants.AddAntIds | units/ants.cpp:286-301 | add_ant prepends an ant whose id is above every earlier id, keeping the ids distinct |
| Ants.ProcessAntIds | units/ants.cpp:257-284 | process_ant keeps the ids distinct and below the next id |
| Ants.Nearest | units/ants.cpp:219-235 | the blob the matching loop keeps is one of the blobs |
| Ants.NearestSpec | units/ants.cpp:219-242 | an ant claims a blob with nonzero score within 40 of its prediction, nearest it, the first of equally near ones; there is none exactly when no blob qualifies |
| Ants.MatchAll | units/ants.cpp:244-255 | matching changes the blobs only in their claims and keeps the number of ants |
| Ants.NearestIgnoresClaims | units/ants.cpp:219-235 | the blob an ant picks does not depend on the claims earlier ants made |
| Ants.Claimer | units/ants.cpp:244-255 | the last ant, in list order, whose prediction has blob k as nearest candidate; none exactly when no ant's has |
| Ants.MatchAllSpec | units/ants.cpp:219-255 | after match_blobs_to_ants each blob is claimed by the last ant whose prediction has it as nearest candidate (its claim unchanged if there is none), and each ant's prediction is its aim when it found a candidate and (0, 0) otherwise |
| Ants.MatchAllClaims | units/ants.cpp:244-255 | the blobs half of `MatchAllSpec`: each blob is claimed by the last ant that has it as nearest candidate, its claim unchanged if there is none |
| Ants.MatchAllAims | units/ants.cpp:244-255 | the ants half of `MatchAllSpec`: each ant's prediction is its aim when it found a candidate and (0, 0) otherwise |
| Ants.FreshAntClaims | units/ants.cpp:244-255 | an ant without a heading or a speed sample aims at where it was last seen; it keeps that prediction exactly when a scored blob lies within 40 of it, and a blob it ends up claiming is a nearest such blob |
| Ants.MatchAllKeeps | units/ants.cpp:219-255 | matching changes only claims and predictions, and a changed claim names one of the ants |
| Ants.ScoreAnts | units/ants.cpp:138-144 | every blob gets the score ant_score gives it and nothing else changes |
| Ants.TakeRecsIds | units/ants.cpp:388-399 | the blob loop of select_ant keeps the ids distinct and below the next id, which never goes down |
| Ants.BestIsPicked | units/ants.cpp:405-414 | select_ant returns an ant exactly when pick_best_ant finds one, that same ant, and it is eligible |
| Ants.Tracker.constructor | units/ants.cpp:146-155 | no ants, next id 1 |
| Ants.Tracker.ProcessAnt | units/ants.cpp:257-284 | the list becomes `ProcessAntS` of the old one and the next id stays |
| Ants.Tracker.AddAnt | units/ants.cpp:286-306 | the new ant, with the next id, the blob's score and centre, is prepended and the next id goes up by 1 |
| Ants.Tracker.SelectAnt | units/ants.cpp:379-415 | score the blobs, match them, reinforce claimed and add unclaimed scored blobs, delete dead ants, and return `Best` of the new list |
| Ants.Tracker.TakeAll | units/ants.cpp:387-398 | the loop over the matched blobs leaves the ant list and the id counter that `TakeRecs` gives: a claimed scored blob reinforces its ant, an unclaimed one is prepended as a new ant with the next id, and unscored blobs change nothing |
| Units.ClampBounds | units/units.cpp:138-141 | the two-sided clamp of a random sample lands in [lo, hi], is the identity inside, and pins to the nearer bound outside |
| Units.RandomMoveInBox | units/units.cpp:122-143 | a call with the counter not 0 or -1 decrements it, sets no `done`, and issues exactly one random move inside [100, 1180] x [100, 860], equal to the sample when the sample is in the box |
| Units.TourMoves | units/units.cpp:124-143 | from a counter c >= 0, c calls make c random moves, leave the counter at 0 and do not set `done` |
| Units.RandomTour | units/units.cpp:124-143 | from the initial counter of 400: calls 1-400 move randomly, call 401 moves home, call 402 sets `done`, and 401 calls alone never set it |
| Units.ClickForcesIdle1 | units/units.cpp:507-547 | a mouse click overrides the stored state with `idle_1`, so the frame ends in `idle_1` or `delay_1` |
| Units.Idle1Arms | units/units.cpp:539-547 | in `idle_1` an idle head turns the laser on, moves to `delay_1` and stamps `laser_on_frame` with the frame index; a busy head stays in `idle_1` with the laser unchanged |
| Units.Delay1Outcomes | units/units.cpp:548-560 | in `delay_1` with the head idle the laser goes off; a seen laser goes to `idle_2` iff the correction is done, else `delay_2`; an unseen one goes to `wait_laser` |
| Units.Delay1Busy | units/units.cpp:561-563 | in `delay_1` with the head busy the state and the laser stay as they were |
| Units.WaitLaserOutcomes | units/units.cpp:565-578 | in `wait_laser` a seen laser goes to `idle_2` iff corrected, else `delay_2`; an unseen one gives up to `delay_2` exactly when the decremented `laser_frame_delay` reaches 0; the lag average of the frame has no effect |
| Units.Delay2Outcomes | units/units.cpp:579-584 | `delay_2` goes to `idle_laser_off` iff the laser is no longer seen, and otherwise stays |
| Units.Idle2Outcomes | units/units.cpp:585-597 | in `idle_2` an idle head starts another pass (laser on, `delay_1`) when `accurate`, else gives up to `delay_2`; a busy head stays in `idle_2` |
| Units.IdleLaserOffOutcomes | units/units.cpp:531-538 | in `idle_laser_off` random mode always goes to `idle_1`; otherwise it goes there iff the laser is unseen and an ant was found, and the random counter is untouched |
| Units.LagMeasured | units/units.cpp:520-526 | a seen laser with an open stamp records one lag sample of `frame_index - laser_on_frame` and clears the stamp, unless `idle_1` stamps it again this frame |
| Units.LaserConsistentInitial | units/units.cpp:485-488 | the loop starts in `idle_1` with the laser off, and laser-on implies `delay_1` or `idle_1` while `delay_1` implies laser-on |
| Units.LaserConsistentStep | units/units.cpp:507-601 | one frame preserves that invariant |
| Units.LaserConsistentRun | units/units.cpp:490-601 | any run of frames preserves that invariant |
| Units.StepEnds | units/units.cpp:502-505 | ESC ends the loop after the frame, a `frame_count` of 1 ends it, and the uint32 `frame_count` is decremented with wrap-around |
| Units.RunBoundedByFrameCount | units/units.cpp:490-505 | with `frame_count` in [1, 2^32) the loop is done after at most `frame_count` frames, and the frame index grows by at most that many |
| Units.Controller.constructor | units/units.cpp:466-488 | the loop variables start as the initial loop state |
| Units.Controller.MoveRandomly | units/units.cpp:122-143 | the counter, `done` and the event log change as the move function says, nothing else does |
| Units.Controller.AntLooker | units/units.cpp:146-161 | logs one ant look and changes nothing else |
| Units.Controller.IdleLaserOffCase | units/units.cpp:531-538 | the new state is the switch's outcome for `idle_laser_off` |
| Units.Controller.Idle1Case | units/units.cpp:539-547 | the new state is the switch's outcome for `idle_1` |
| Units.Controller.Delay1Case | units/units.cpp:548-564 | the new state is the switch's outcome for `delay_1` |
| Units.Controller.WaitLaserCase | units/units.cpp:565-578 | the new state is the switch's outcome for `wait_laser` |
| Units.Controller.Delay2Case | units/units.cpp:579-584 | the new state is the switch's outcome for `delay_2` |
| Units.Controller.Idle2Case | units/units.cpp:585-597 | the new state is the switch's outcome for `idle_2` |
| Units.Controller.BeforeSwitch | units/units.cpp:502-526 | frame index, `frame_count`, the click override and the lag measurement are updated as the pre-switch function says |
| Units.Controller.Switch | units/units.cpp:530-601 | the new state is the outcome of the switch on the current state |
| Units.Controller.Step | units/units.cpp:490-642 | one loop pass takes the state to the step function of the old state |
| Units.Controller.Run | units/units.cpp:490-642 | the loop over a sequence of frames ends in the run function of the old state |
| BlobsUnits.BoxIsTight | units/blobs.cpp:75-96 | on pixels inside the image, the running min/max box from (cols, rows, 0, 0) contains every taken pixel and each of its four edges is attained by one |
| BlobsUnits.SumXBounds | units/blobs.cpp:97 | the x total of pixels with x in [lo, hi] lies between n lo and n hi |
| BlobsUnits.SumYBounds | units/blobs.cpp:98 | the y total of pixels with y in [lo, hi] lies between n lo and n hi |
| BlobsUnits.MeanBetween | units/blobs.cpp:138-139 | the scaled, floored mean `tot * scale / npix` of values in [lo, hi] lies in [lo scale, hi scale] |
| BlobsUnits.CentreInBox | units/blobs.cpp:132-140 | the record's centre lies inside its scaled bounding box, the box is at least one scaled pixel in each direction, and `npix` is the pixel count |
| BlobsUnits.Try | units/blobs.cpp:108-123 | a neighbour is pushed only when inside the image, above the threshold and outside keepout |
| BlobsUnits.Pushed | units/blobs.cpp:108-123 | the pixels pushed are exactly the 4-neighbours inside the image, above the threshold and outside keepout |
| BlobsUnits.Lower | units/blobs.cpp:92 | lowering one pixel to the threshold extends the record of lowered pixels by it |
| BlobsUnits.TakeAccumulates | units/blobs.cpp:91-99 | taking one more pixel adds its coordinates to the totals, widens the box by min/max, and adds it to the taken set |
| BlobsUnits.TrailTake | units/blobs.cpp:89-124 | taking a pixel pushed from an earlier one and pushing its neighbours keeps every stacked pixel a neighbour of a taken one |
| BlobsUnits.TrailPop | units/blobs.cpp:57-90 | the popped pixel is inside the image, outside keepout and a neighbour of a taken pixel |
| BlobsUnits.TakeStep | units/blobs.cpp:91-99 | the pixel was not yet taken; it is lowered and folded into the box, totals and count |
| BlobsUnits.Visit | units/blobs.cpp:91-124 | one taken pixel is lowered and accumulated, and the neighbours pushed keep the trail invariant |
| BlobsUnits.Advance | units/blobs.cpp:90-107 | one turn of the fill loop keeps the walk invariant, counts at most one pixel, and overflows exactly when the count passes 2000 |
| BlobsUnits.FrontierTake | units/blobs.cpp:91-123 | taking a pixel and pushing its open neighbours leaves every open neighbour of a taken pixel taken or waiting |
| BlobsUnits.FrontierSkip | units/blobs.cpp:90-91 | a popped pixel no longer above the threshold was open only if it was already taken, so skipping it loses no open neighbour |
| BlobsUnits.Fill | units/blobs.cpp:89-125 | from a seed above the threshold the fill takes distinct pixels, starting at the seed, each a 4-neighbour of an earlier one and outside keepout, lowers exactly them, accumulates their box, totals and count, overflows iff it counts 2001, and without overflow has taken every open 4-neighbour of every pixel it took |
| BlobsUnits.AddBlob | units/blobs.cpp:71-156 | a seed at or below the threshold changes nothing (not even `*error`); otherwise the seed is taken, the error flag is set iff more than 2000 pixels are counted, without an error the pixels are the seed's whole 4-connected region above the threshold outside keepout, fewer than 3 add no record, and otherwise the record of exactly those pixels is prepended |
| BlobsUnits.ParentConnected | units/blobs.cpp:108-123 | every pixel after the first is pushed from an earlier one it neighbours, so a fill's pixels form one 4-connected chain from the seed |
| BlobsUnits.SettledFill | units/blobs.cpp:89-125 | a fill that did not overflow keeps the lowered pixels closed: of two neighbouring pixels both open at the start, one lowered means the other is lowered |
| BlobsUnits.ClosedInOrigin | units/blobs.cpp:89-125 | a blob closed in the image the fill started from is closed in the image as find_bbb received it, because earlier fills lowered only whole regions |
| BlobsUnits.WholeGrow | units/blobs.cpp:127-144 | adding a closed, 4-connected blob keeps every found blob a whole 4-connected region |
| BlobsUnits.Candidate | units/blobs.cpp:187-188 | one seeded add_blob lowers exactly the pixels its fill took, the seed first, each open in the image find_bbb received; it reports an error iff more than 2000 were counted, and then they are the seed's 2001-pixel spill; without an error the fill is a whole 4-connected region, the blobs gain it, the records gain its record iff it has at least 3 pixels, and the found-blobs invariant and the closed lowering hold |
| BlobsUnits.FoundGrow | units/blobs.cpp:127-144 | a fill that did not overflow keeps the found-blobs invariant with its blob recorded if it has at least 3 pixels |
| BlobsUnits.RecordsGrow | units/blobs.cpp:133-144 | prepending the record of a blob of 3 to 2000 pixels keeps records and blobs in step |
| BlobsUnits.ScanOrderSnoc | units/blobs.cpp:172-178 | appending a pixel met later in the row-major scan keeps the candidates in scan order |
| BlobsUnits.KeptMembers | units/blobs.cpp:127-144 | the kept blobs are exactly the fills of at least 3 pixels |
| BlobsUnits.KeptSnoc | units/blobs.cpp:127-144 | one more fill joins the kept blobs iff it has at least 3 pixels |
| BlobsUnits.NotInFills | units/blobs.cpp:181 | a pixel still above the threshold lies in no fill |
| BlobsUnits.TracedGrow | units/blobs.cpp:89-125 | after one more fill every fill pixel is at the threshold, every pixel changed since the scan began lies in a fill, and the blobs are still the kept fills |
| BlobsUnits.FillsAdd | units/blobs.cpp:181-187 | a new candidate that no earlier fill took keeps each fill starting at its own candidate and free of later candidates |
| BlobsUnits.FillsGrow | units/blobs.cpp:187 | the new candidate's fill, a whole open 4-connected region starting at it, joins the fills |
| BlobsUnits.SeedsAdd | units/blobs.cpp:178-187 | an open pixel at the scan position extends the candidates in scan order, one column on |
| BlobsUnits.MetGrow | units/blobs.cpp:187 | with the current candidate's fill added, every open pixel passed one column on lies in the fill of a candidate at or before it |
| BlobsUnits.SkipPixel | units/blobs.cpp:179-181 | a keepout pixel or one not above the threshold is no candidate, and passing it keeps the scan state |
| BlobsUnits.ScanEdge | units/blobs.cpp:178 | columns at or past the image's right edge hold no candidate, so the cut-off at `fg.cols` keeps the scan state at the chunk's end |
| BlobsUnits.RowDone | units/blobs.cpp:172-176 | a row scanned to the end of its last group of eight moves the scan to the start of the next row |
| BlobsUnits.ScanStart | units/blobs.cpp:160-172 | before the first row the scan state holds with no records, blobs, fills or candidates |
| BlobsUnits.ScanNone | units/blobs.cpp:172 | a region of negative height scans no row and the empty state holds at its end |
| BlobsUnits.SeedMet | units/blobs.cpp:181-187 | an open pixel met that no fill took becomes the next candidate with the fills, candidate and coverage invariants kept |
| BlobsUnits.SeedsExact | units/blobs.cpp:172-201 | at any scan position a pixel is a candidate iff the scan passed it, it was open in the image find_bbb received, and no earlier candidate's fill took it |
| BlobsUnits.SeedOpen | units/blobs.cpp:172-201 | a candidate was passed, was open, and lies in no fill of an earlier candidate |
| BlobsUnits.PassedCovered | units/blobs.cpp:172-201 | an open pixel passed that is not a candidate lies in the fill of an earlier candidate |
| BlobsUnits.MetSwept | units/blobs.cpp:172-201 | once every row is scanned no pixel of the region outside keepout is above the threshold |
| BlobsUnits.StopBail | units/blobs.cpp:183-186 | a candidate met with the count past 1000 stops the scan as a bail with the records so far and the candidate unfilled |
| BlobsUnits.StopOverflow | units/blobs.cpp:188-196 | an overflowing fill stops the scan with no records, no blobs and the candidate's spill |
| BlobsUnits.Seed | units/blobs.cpp:181-197 | the candidate is counted; if the count was already past 1000 the scan bails with the candidate left above the threshold; an overflow frees every record and ends the scan with the candidate's 2001-pixel spill; otherwise the candidate is lowered and the scan moves on past it |
| BlobsUnits.ScanChunk | units/blobs.cpp:178-198 | over its eight columns the loop keeps the scan state (the found-blobs invariant, one whole open fill per candidate, every changed pixel in a fill, the candidates exactly the open pixels passed that no earlier fill took, in scan order), ending at the group's end, or stops at a bail or overflow on this row |
| BlobsUnits.ScanRow | units/blobs.cpp:176-200 | one row carries the scan state from its first column to the start of the next row, or stops at a bail or overflow on this row |
| BlobsUnits.ScanRows | units/blobs.cpp:172-201 | the row loop ends with the scan state at the region's bottom edge, or stopped at a candidate inside the region |
| BlobsUnits.ScanDone | units/blobs.cpp:172-201 | at the end of the scan no pixel of the region outside keepout is above the threshold, and the candidates are exactly the open pixels of the region that no earlier candidate's fill took |
| BlobsUnits.StoppedExact | units/blobs.cpp:183-196 | at a stop the candidates before the last are exactly the open pixels passed before it that no earlier fill took |
| BlobsUnits.FindBbb | units/blobs.cpp:159-204 | the records are those of the blobs, newest first, at most 1001; each blob is a whole 4-connected region of 3 to 2000 pixels open in the image as it was, no pixel in two blobs; each candidate's fill starts at it and is a whole open region; a finished scan has one fill per candidate, its blobs are exactly the fills of at least 3 pixels, every changed pixel lies in a fill, no pixel of the region outside keepout stays above the threshold, and the candidates are exactly the open pixels that no earlier candidate's fill took; otherwise it bailed at the 1002nd candidate, left unfilled, or overflowed with no records and the last candidate's spill, with the same exactness for the candidates before the last |
| BlobsMovies.MaskIsShift | movies/blobs.cpp:69-83 | the bit mask of position a is `1 << a` |
| BlobsMovies.OrMask | movies/blobs.cpp:69 | or-ing in bit a sets bit a and no other bit of the byte |
| BlobsMovies.AndNotMask | movies/blobs.cpp:76 | and-ing with the complement of bit a clears bit a and no other |
| BlobsMovies.BitsSet | movies/blobs.cpp:65-70 | setting bit i changes bit i to true and no other bit of the vector |
| BlobsMovies.BitsClear | movies/blobs.cpp:72-77 | clearing bit i changes bit i to false and no other bit of the vector |
| BlobsMovies.NelCovers | movies/blobs.cpp:54 | `nel = (len + 8) / 8` bytes hold every bit below `len` |
| BlobsMovies.InitPrefix | movies/blobs.cpp:56-62 | the bytes the constructor's loop writes hold the fill value in every bit |
| BlobsMovies.InitLeavesJunk | movies/blobs.cpp:54-62 | the loop writes `p[i / 8]` for i below `nel`, so a cleared vector of 72 bits can read bit 16 as set from an unwritten byte |
| BlobsMovies.BitVec.constructor | movies/blobs.cpp:51-63 | the bytes are the fill value up to byte `(nel - 1) / 8` and the allocation's prior contents beyond |
| BlobsMovies.BitVec.Set | movies/blobs.cpp:65-70 | the bits become the old bits with bit i true |
| BlobsMovies.BitVec.Clear | movies/blobs.cpp:72-77 | the bits become the old bits with bit i false |
| BlobsMovies.BitVec.Value | movies/blobs.cpp:79-87 | returns bit i |
| BlobsMovies.IdxInRange | movies/blobs.cpp:139-147 | a pixel of the region maps to a bit `yr width + xr` below `width height`, inside the vector |
| BlobsMovies.IdxInjective | movies/blobs.cpp:139-147 | two pixels of the region never share a bit |
| BlobsMovies.MarkGrows | movies/blobs.cpp:147 | marking taken pixels only sets bits |
| BlobsMovies.MarkHas | movies/blobs.cpp:147 | marking sets the bit of every taken pixel |
| BlobsMovies.RecordSpans | movies/blobs.cpp:124-191 | the record's box is the tight bounding box of its pixels, inside the region, at least 1 by 1, with the mean centre inside it and `npix` the pixel count |
| BlobsMovies.Pushed | movies/blobs.cpp:163-174 | the pixels pushed are exactly the 4-neighbours inside the region and below the threshold |
| BlobsMovies.TrailTake | movies/blobs.cpp:141-174 | taking a pixel pushed from an earlier one and pushing its neighbours keeps every stacked pixel a neighbour of a taken one |
| BlobsMovies.TrailPop | movies/blobs.cpp:106-142 | the popped pixel is inside the region and a neighbour of a taken pixel |
| BlobsMovies.TakeOpen | movies/blobs.cpp:145-147 | a pixel below the threshold whose bit is still clear was open before the fill and is not yet taken |
| BlobsMovies.Take | movies/blobs.cpp:147-154 | the bits gain the pixel's bit and the box, totals and count gain the pixel |
| BlobsMovies.Visit | movies/blobs.cpp:145-174 | one taken pixel is marked and accumulated, and the neighbours pushed keep the trail invariant |
| BlobsMovies.Advance | movies/blobs.cpp:142-162 | one turn of the fill loop keeps the walk invariant, counts at most one pixel, and overflows exactly when the count passes 2000 |
| BlobsMovies.MarkOnly | movies/blobs.cpp:145-147 | a bit set by the fill and clear before belongs to a taken pixel |
| BlobsMovies.FrontierTake | movies/blobs.cpp:145-174 | taking a pixel and pushing its neighbours below the threshold leaves every open neighbour of a taken pixel taken or waiting |
| BlobsMovies.FrontierSkip | movies/blobs.cpp:142-146 | a popped pixel that is not below the threshold or already checked was open only if it was already taken, so skipping it loses no open neighbour |
| BlobsMovies.Fill | movies/blobs.cpp:141-176 | from an open seed the fill takes distinct pixels below the threshold, unchecked before, starting at the seed and each a 4-neighbour of an earlier one; exactly their bits get set; it overflows iff it counts 2001, and without overflow has taken every open 4-neighbour of every pixel it took |
| BlobsMovies.AddBlob | movies/blobs.cpp:120-204 | a seed at or above the threshold or already checked changes nothing (not even `*error`); otherwise error iff more than 2000 pixels; without an error the pixels are the seed's whole 4-connected open region; no record below 3, else the record of exactly those pixels is prepended |
| BlobsMovies.TookEarlier | movies/blobs.cpp:145-147 | the pixels of a fill, open in the bits it started from, were open in the bits find_bbb started from |
| BlobsMovies.SettledFill | movies/blobs.cpp:141-176 | a fill that did not overflow keeps the set bits closed: of two neighbouring pixels both open at the start, one set means the other is set |
| BlobsMovies.ClosedInOrigin | movies/blobs.cpp:141-176 | a blob closed in the bits the fill started from is closed in the bits find_bbb started from, because earlier fills set only whole regions |
| BlobsMovies.WholeGrow | movies/blobs.cpp:178-193 | adding a closed, 4-connected blob keeps every found blob a whole 4-connected region |
| BlobsMovies.RecordsGrow | movies/blobs.cpp:184-193 | prepending the record of a blob of 3 to 2000 pixels keeps records and blobs in step |
| BlobsMovies.OpenGrow | movies/blobs.cpp:145-147 | the pixels of a later fill were open in the initial bits too |
| BlobsMovies.DisjointGrow | movies/blobs.cpp:138-147 | a fill never takes a pixel of an earlier blob |
| BlobsMovies.CoveredGrow | movies/blobs.cpp:147 | after the fill the earlier blobs and the new one have their bits set |
| BlobsMovies.Candidate | movies/blobs.cpp:229-235 | one seeded add_blob only sets the bits of the pixels its fill took, and takes none iff the seed is not open; then the error flag is unchanged (its garbage) and the records too; otherwise the seed is taken first, an error means a 2001-pixel spill from the seed, and without one the fill is a whole 4-connected open region, the blobs gain it, the records gain its record iff it has at least 3 pixels, the found-blobs invariant and the closed set bits hold, and the seed's bit is set |
| BlobsMovies.FoundGrow | movies/blobs.cpp:178-193 | a fill that did not overflow keeps the found-blobs invariant with its blob recorded if it has at least 3 pixels |
| BlobsMovies.ChunkOfIn | movies/blobs.cpp:225-227 | every column of a group of eight belongs to the group that starts it |
| BlobsMovies.ChunkEndExact | movies/blobs.cpp:215-225 | with a width that is a multiple of 8 the groups of eight end exactly at the region's right edge |
| BlobsMovies.TracedCovered | movies/blobs.cpp:147 | every pixel of a recorded blob has its bit set |
| BlobsMovies.OpenNow | movies/blobs.cpp:138-146 | a pixel is open now iff it was open in the fresh bit vector and no fill took it |
| BlobsMovies.TracedGrow | movies/blobs.cpp:141-176 | after one more fill every fill pixel's bit is set, every bit set since the start belongs to a fill pixel, and the blobs are still the kept fills |
| BlobsMovies.FillsAdd | movies/blobs.cpp:228-234 | adding a candidate not yet filled keeps the fills invariant: each fill is non-empty iff its candidate was open in the fresh bits and no earlier fill took it, starts there, and is a whole open region |
| BlobsMovies.FillsGrow | movies/blobs.cpp:234 | the new candidate's fill, empty iff the candidate was already taken and otherwise its whole open region from it, joins the fills |
| BlobsMovies.SeedsAdd | movies/blobs.cpp:227-234 | a pixel below the threshold in a group that is not all zero extends the candidates in scan order, one column on |
| BlobsMovies.MetGrow | movies/blobs.cpp:234 | with the current candidate's fill added, every open candidate passed one column on lies in the fill of a candidate at or before it |
| BlobsMovies.SeedMet | movies/blobs.cpp:228-234 | a candidate met becomes the next one with the fills, candidate and coverage invariants kept, and is open now iff no fill took it |
| BlobsMovies.SkipPixel | movies/blobs.cpp:227-228 | a pixel that is no candidate is passed with the scan state kept |
| BlobsMovies.ChunkSkip | movies/blobs.cpp:226 | a group of eight zero bytes holds no candidate, so skipping it keeps the scan state |
| BlobsMovies.RowDone | movies/blobs.cpp:221-225 | a row scanned to the region's right edge moves the scan to the start of the next row |
| BlobsMovies.ScanStart | movies/blobs.cpp:209-221 | before the first row the scan state holds with no records, blobs, fills or candidates and the fresh bits |
| BlobsMovies.StopBail | movies/blobs.cpp:230-233 | a candidate met with the count past 1000 stops the scan as a bail with the records so far |
| BlobsMovies.StopFail | movies/blobs.cpp:235-242 | an error stops the scan with no records, explained by the candidate's spill or by the flag's garbage for an already checked candidate |
| BlobsMovies.Seed | movies/blobs.cpp:228-244 | the candidate is counted; if the count was already past 1000 the scan bails; an error frees every record and ends the scan, explained by a 2001-pixel spill or by the flag's garbage for an already checked seed; otherwise the seed's bit is set and the scan moves on past it |
| BlobsMovies.ScanChunk | movies/blobs.cpp:227-245 | over the columns of a group that is not all zero the loop keeps the scan state (the found-blobs invariant, one fill per candidate, every set bit a fill pixel's, the candidates exactly the pixels below the threshold passed in such groups, in scan order), or stops at a bail or error on this row |
| BlobsMovies.ScanRow | movies/blobs.cpp:222-247 | one row carries the scan state from its first column to the start of the next row, skipping all-zero groups, or stops at a bail or error on this row |
| BlobsMovies.ScanRows | movies/blobs.cpp:221-249 | the row loop ends with the scan state at the region's bottom edge, or stopped at a candidate inside the region |
| BlobsMovies.ScanDone | movies/blobs.cpp:221-249 | at the end of the scan every candidate has its bit set and the candidates are exactly the pixels of the region below the threshold in groups that are not all zero |
| BlobsMovies.StoppedExact | movies/blobs.cpp:230-243 | at a stop the candidates before the last are exactly the candidate pixels passed before it |
| BlobsMovies.FindBbb | movies/blobs.cpp:207-251 | the records are those of the blobs, newest first, at most 1001; each blob is a whole 4-connected region of 3 to 2000 pixels below the threshold and open in the fresh bit vector, no pixel in two blobs; each candidate's fill is empty iff the candidate was set in the fresh bit vector or an earlier fill took it, and otherwise starts at it and is its whole open region; a finished scan met exactly the pixels of the region below the threshold in groups that are not all zero, at most 1001, one fill each, its blobs are the fills of at least 3 pixels, every bit set belongs to a fill pixel and every candidate's bit is set; otherwise it bailed at the 1002nd candidate or stopped on an error with no records, explained by a spill or the flag's garbage, and the candidates before the last are exactly those passed before it |
| FindAnts.Loop | movies/find_ants.cpp:74-125 | the loop uses at most the polls it is given |
| FindAnts.ProcessKeys | movies/find_ants.cpp:68-126 | the flags and frame index returned are those of the loop function from a zero count, and the loop stops early only when the frame index changed or `done` was set |
| FindAnts.Turn | movies/find_ants.cpp:75-124 | one pass of the loop body takes count, frame index and `done` to the step function of the poll |
| FindAnts.ForwardClamps | movies/find_ants.cpp:78-87 | right arrow, 'n' or space moves to `frame_index + step`, capped at the last frame, with step the count or 1, and leaves `done` alone |
| FindAnts.BackClamps | movies/find_ants.cpp:88-96 | left arrow or 'p' moves to `frame_index - step`, floored at frame 0, and leaves `done` alone |
| FindAnts.QuitStops | movies/find_ants.cpp:109-112 | ESC or 'q' sets `done` and changes nothing else |
| FindAnts.KeysStayInRange | movies/find_ants.cpp:74-117 | without right clicks the frame index of a non-empty movie stays in [0, nframes) and the count stays non-negative |
| FindAnts.RightClickPassesEnd | movies/find_ants.cpp:118-124 | a right click on the last frame moves the index past the end of the movie, since `frame_index++` is not clamped |
| FindAnts.EmptyMovieWraps | movies/find_ants.cpp:83-86 | in a movie of 0 frames a forward key sets the uint32 index to `nframes - 1`, that is 2^32 - 1 |
| FindAnts.Typed | movies/find_ants.cpp:97-108 | the polls typing a list of digits, one key each without clicks |
| FindAnts.Pow10 | movies/find_ants.cpp:107 | powers of ten are at least 1 |
| FindAnts.DigitsAccumulate | movies/find_ants.cpp:97-108 | typing digits appends them to the count in decimal (`c 10^n + value`) and leaves frame index and `done` alone, so the loop keeps polling and uses exactly those polls |
| Player.PixTblShape | units/player.cpp:79-97 | the table has 16 entries before its zero terminator, with strictly increasing positive targets, each the area of its non-empty block |
| Player.SizeFromBrackets | units/player.cpp:116-122 | the lookup from entry i finds a block exactly when `ideal` is below 24, and then the entry k it picks brackets `ideal` between its target and the next |
| Player.SizeFromNone | units/player.cpp:116-122 | an `ideal` below 1 matches no entry |
| Player.SizeBrackets | units/player.cpp:116-122 | a block is found exactly for `ideal` from 1 to 23, it is non-empty, its area is at most `ideal` and is the largest table target not above `ideal` |
| Player.Chosen | units/player.cpp:79-122 | in a table of increasing areas, the bracketing entry is the largest target not above `ideal` |
| Player.LargeAntUnsized | units/player.cpp:116-122 | an ideal size of 24 or more finds nothing, so `len` and `width` keep their unset values |
| Player.Lookup | units/player.cpp:109-122 | the loop yields the block the lookup function finds, or the stale values of the locals when none matches |
| Player.ZeroRow | units/player.cpp:127-128 | exactly the `width` pixels of the row from `px` become 0 and every other pixel is unchanged |
| Player.Interp | units/player.cpp:106-128 | on a full-size frame exactly the block of the looked-up size at (py, px) becomes 0; on any other scale the frame is unchanged |
| Player.Player.constructor | units/player.cpp:67-69 | the cursor starts at the first record and `done` is clear |
| Player.Player.AddAnt | units/player.cpp:131-146 | the frame is painted exactly when the frame index lies between records `cpos` and `cpos + 1` (and not before the first); the cursor advances on the frame of record `cpos + 1`, and `done` is set once it reaches the last pair |
| Snap.DarkRowMembers | movies/snap.cpp:70-78 | one row's scan collects exactly that row's roi pixels darker than the threshold |
| Snap.DarkMembers | movies/snap.cpp:70-78 | the scan collects exactly the roi's pixels darker than the threshold |
| Snap.FindCg | movies/snap.cpp:65-86 | returns the mean position of the roi's dark pixels, or the roi's centre when there are none |
| Snap.ScanRow | movies/snap.cpp:72-78 | one row adds its dark pixels' coordinates and count to the totals |
| Snap.CentreInRoi | movies/snap.cpp:65-86 | on a non-empty roi the point find_cg reports lies inside the roi |
| Snap.FitsIffInside | movies/snap.cpp:179-194 | the window test passes exactly when the square window lies inside the frame |
| Snap.Place | movies/snap.cpp:179-198 | skipped when the search window does not fit; otherwise a snapshot exactly when the 20 by 20 window on the centre of gravity (or on the position itself without ants) fits, that window inside the frame, and the centre of gravity inside the search window |

## Left out

- Serial port I/O in python/eibot.py (opening, closing and reopening the port, `inWaiting`, `time.sleep`): replies are an input sequence and commands an output log, and a failing read ends the motor's run as `Raised`, since `reopen_port()` is called without its argument.
- The Tkinter GUI of python/eibot.py (`config_gui`, `main_gui`, `call_polls`): it is user interface only.
- Shared memory and OS actions in python/clicker.py (`mmap`, `os.system` shutdown and restart, SIGTERM, the outer `except` and restart): the record is a byte array and the OS commands and sleeps are logged events.
- Cross-process concurrency on the mailbox: the busy-waits on `pc->ok` in units/hw.cpp become preconditions or the `ok` field's value, and the race between producer and consumer is not modelled.
- Floating-point geometry and timing in units/hw.cpp (lens distortion, mirror angles, `theta_to_steps`, `move_time`, `pxy_to_loc`, the bodies of `do_move` and `do_correction` beyond `start_move`): the step counts given to `start_move` are exact reals.
- The OpenCV pipeline (`process_frame`, `find_laser`, `correct`, `ant_looker`'s scoring): their results are per-frame inputs of the state machine.
- Ants: `ant_score`, `predict_next_pos` and the size table built by the ants constructor are left out, so `ant_score` is a function parameter. Distances are compared as squares, not as square roots.
- Util.DirectionAverage: `direction_average::average` normalises by a square root and is left out. The running totals are exact reals, not doubles.
- units/neuro.cpp (the Caffe classifier and the snapshot queue) and units/xytest.cpp (an interactive driver) are not part of this model.
- Player: the constructor's file reading is left out, so the constructor takes the parsed records and requires at least two of them. The interpolated position, computed in doubles, and `get_ant_size` are inputs.
- Player.Lookup: `len` and `width` keep the uninitialised locals' values when no entry matches; those values are parameters.
- Snap: reading stdin, the video capture, `imwrite`, the running total image and the `no_ants` frame offset of 50 are left out. The "bad xy" exit is the precondition of `Place`.
- Snap: a frame is the bytes `at<uchar>(y, x)` reads, for x below the column count. For a three-channel video these are the first bytes of each interleaved colour row, not grey values; the model indexes them the same way.
- Snap.FindCg: `xtot` and `ytot` are C `int`s; totals past 2^31 would overflow, which windows of at most 30 by 30 pixels never reach. The model's integers are unbounded.
- FindAnts: the mouse callback, `waitKey`, the printing of clicks and the video reading in `main` become the `Poll` inputs. The `int64_t` count could overflow after nineteen digits; the model's count is unbounded.
- FindAnts.OnKey: the frame index is a uint32. Only the forward clamp of an empty movie and the unbounded right click can wrap, and both are written with explicit 32-bit wrap-around.
- Ramp.MakeRamp: requires `Halts`, which is sufficient for make_ramp to return but not necessary. The source hangs with acceleration 0 (`NoAccelStalls`) and, for longer moves, with a cruise count of 0 (`ZeroCruiseStalls`); other parameter choices under which it happens to stop for a particular move, and a zero move with a negative first interval, are not modelled.
- Ramp.Accel: the floating-point `int(i*dt*accel*dt + 0.5)` with `dt = msdt/1000` is modelled as the exact integer `(2*i*accel*msdt*msdt + 10^6) / (2*10^6)`, the cruise count `int(steps_per_sec*dt + 0.5)` as `(2*steps_per_sec*msdt + 1000) / 2000`, and the test `i*dt*accel >= steps_per_sec` as `i*msdt*accel >= 1000*steps_per_sec`. Double rounding, which can move a count by one near a half, is not modelled; for negative products Python's `int` truncates toward zero while the model floors.
- EiBot.Motor.RampTo: `RampTo`, `MoveIn`, `MoveOut`, `MoveAbs`, `Ramp1` and `Ramp2` with ms 0 require `RampHalts` of the steps they ramp, for the reason given for `Ramp.MakeRamp`.
- Ants.Aim: the extrapolated prediction `last + uv * speed * frames * frame time` is computed in doubles and is the input `predict`. The model keeps the sample counts of the heading and speed averages, not the unit vectors and the speeds `dist / dt` themselves; only whether an average is empty decides the prediction.
- BlobsUnits.FindBbb: the skip over eight zero bytes at a time is not modelled. With a non-negative threshold a zero pixel never seeds a blob, so the skip changes no result.
- BlobsMovies.FindBbb: requires a region whose width is a multiple of 8. Otherwise the inner scan runs past the region's right edge and indexes the bit vector outside the region.
- BlobsMovies: the bytes the bit-vector constructor leaves unwritten (`junk`), and the uninitialised `error` flag of each candidate (`garbage`), are parameters.
- The flood fills' `uint64_t` totals and `uint32_t` counts cannot overflow within 2001 pixels, so they are unbounded integers. The pixel stacks are sequences, not linked nodes, and their allocation and freeing are left out.
- Backlash: freeing the list and the SQL dump are left out. The start node's `last_m1` and `last_m2`, which C leaves unset and nothing reads, are 0.
- Units: `move_randomly`'s normal samples (`rand`, `log`, `cos`) and the rounding to integers are inputs. Drawing, timing and `imshow` are left out.
