# StepperControl: a verified model

StepperControl drives several stepper motors through a PM381 controller on a serial line. A server
keeps the axes, their configuration file and the controller's registers together, and answers text
requests over TCP; a GUI and command-line clients talk to it. A separate program sets the energy of an
electron gun from a calibration table. This project models that software in Dafny and proves what
it promises, and exactly where it does not.

`dafny verify dfyconfig.toml` checks everything.

## How it is built

| files | what |
|---|---|
| `Controller.dfy` | the PM381 as far as the software relies on it, the command texts, the log of a connection |
| `Config.dfy` | the configuration tree and its getters and setters |
| `BoardSpec.dfy`, `Board.dfy` | the board software, first as functions on its state, then as the objects it consists of; every method is proved to compute its function |
| `MoveLaws`, `ReadLaws`, `MirrorLaws`, `RunLaws`, `InvariantLaws`, `RestartLaws`, `ScriptLaws` | what those functions guarantee, from one command to whole runs and program restarts; what goes over the line as text |
| `Report.dfy`, `Serial.dfy` | the position report and its pattern walk; the chunked read loop and the shape of replies |
| `Message.dfy`, `Protocol.dfy`, `Connections.dfy`, `Client.dfy` | the wire format; any number of client threads, the network and the server as interleaved steps, on one connection and on any number of them; the GUI's end as an object |
| `Texts.dfy`, `Parser.dfy`, `Display.dfy` | splitting and trimming; the `x=1,y=2` parser; printing and the GUI's parsers |
| `Server.dfy`, `ServerLaws.dfy`, `RequestLaws.dfy`, `SystemLaws.dfy` | the server's session with its request dispatcher; results from request text to what is read back and displayed; every request by its text; the whole system of connections, threads, sessions and the shared board |
| `Egun.dfy` | the gun's calibration: linear fits, two searches, monotonicity |
| `Basics.dfy`, `Decimal.dfy`, `Units.dfy` | truncation and ordering, decimal text, unit conversion |

Code that changes state step by step is modelled as classes and methods with loops; each is proved
against a function, and the laws are about that function, so a method that skipped a step or swapped
two values would break its own contract, and a changed function would break a law.

## Assumptions

- The controller is the only assumption about the outside: an accepted command has the effect in
  `Controller.Perform` on the selected channel, any other reply leaves the controller alone, and what a
  command does that a client had passed through is left open. Which
  commands are accepted is open: replies are an arbitrary function of the command's number. Theorems
  that need accepted commands or true position reports say so about the stretch of the log they
  concern.
- A faithful report lists every registered axis with its true position, in any order, with any filler
  that forms no match. One exists exactly when all ids are single
  digits (`Controller.FaithfulReportExists`).
- How reals are read and printed, and the wording of `help`, are parameters.
- User units are exact reals; conversion to an integer truncates towards zero.
- A configuration tree has a node with all elements for every axis and no zero unit factor. Results
  about more than one axis ask for distinct ids.
- Messages hold texts below 1024 characters without NUL, and a reader gets whole eight-byte headers.

## Where the code departs from the obvious claim

The model follows the code; each departure has a proved statement with its exact condition.

- Both move loops ignore the result of selecting the axis, so a lost select drives the wrong motor and
  reports success (`MisdirectedMove`; `MoveOnTarget` and `MoveResult` say exactly when, `MoveDrives`
  what the channels hold).
- `setaxisnum` overwrites its own "invalid axis" code and still sends the command, so the channel moves
  to an unknown id and the board is left without a current axis (`UnknownSelected`, `ExecAligned`).
- `connect` selects channel 1 behind the board's back, so afterwards current axis and channel agree
  only when the last axis is axis 1 (`ConnectAgrees`). The next accepted move repairs this, as does the
  next accepted select of a registered axis (`ExecAligned`). Without a current axis a move restores a
  stale channel (`ChannelPutBack`).
- A relative move in user units adds the zero offset (`RelativeMoveExact`, `RelativeRequest`).
- The report pattern takes one digit as id, so reports of axis 10 or above are credited to another axis
  (`ReportReadFaithfully`, `FaithfulReportExists`).
- `SetZero` does not notice that an axis could not be read and sets its offset to 0
  (`ZeroOffsetExactly`).
- A rejected select during a refresh leaves the axis object stale (`UpdateMirrorsExactly`).
- Energies from 10 up to 10.4 are sent to the gun before the program gives up (`SetShippedEnergy`).
- A bad escape in a move request raises an exception that ends the server (`TrailingEscapeStops`;
  `StopsExactly` says for which requests). The caller is then never answered (`CallCanFinish`,
  `SystemCallCanFinish`).
- `psl` leaves the zero offset out, so its limits are not in the coordinates of `pp` (`LimitsShown`).
- The GUI numbers axes itself, and the server's pattern takes one digit, so its rows select the axes they
  show only for ids 1 .. n with n at most 9 (`GuiAddressesAxes`, `TenthAxis`); its coordinates fit for
  ids 1 .. n (`GuiShowsBoard`).

## Model

| member | source | states |
|---|---|---|
| `Units.StepsRoundTrip` | src/core/IAPBoard.cpp:345-378 | converting a step count to user units and back gives the same step count |
| `Units.UnitsRoundTrip` | src/core/IAPBoard.cpp:345-378 | converting user units to steps and back is off by strictly less than one step's worth, the size of the factor |
| `Units.TowardsZero` | src/core/IAPBoard.cpp:354-357 | steps are the exact quotient plus offset with the fraction dropped towards 0, whatever the signs |
| `Units.ConversionOrder` | src/core/IAPBoard.cpp:354-375 | positive factors keep order and negative ones reverse it: weakly towards steps, strictly towards units |
| `Units.RelativeMoveExact` | src/core/IAPBoard.cpp:482-487 | the shared conversion makes a relative move exact to within one step for every distance if and only if the zero offset is 0 |
| `Units.ZeroTargetsOffset` | src/core/IAPBoard.cpp:354-357 | user position 0 is the zero offset, both ways |
| `ReadLaws.ToBareContents` | src/core/IAPBoard.cpp:345-359 | the conversion loop covers exactly the ids before the first unregistered one, each by its own factor and offset, and keeps what the target held otherwise |
| `ReadLaws.ToBareIsSteps` | src/core/IAPBoard.cpp:345-359 | on registered axes the loop is one map over the whole position |
| `ReadLaws.ToUserIsUserUnits` | src/core/IAPBoard.cpp:361-378 | likewise for the way back |
| `ReadLaws.StepsSurvive` | src/core/IAPBoard.cpp:345-378 | over a whole position of registered axes, steps to units to steps is the identity |
| `ReadLaws.UnitsNearlySurvive` | src/core/IAPBoard.cpp:345-378 | over a whole position, units to steps to units names the same axes and is off by less than the size of the factor on each |
| `ReadLaws.ReadBareTruth` | src/core/IAPBoard.cpp:531-567 | a faithful report, scanned and stored, is the controller's true position of exactly the registered axes |
| `ReadLaws.ReadUserTruth` | src/core/IAPBoard.cpp:569-574 | with a faithful report the position in user units is (steps minus offset) times factor for every registered axis |
| `ReadLaws.QueryIsHarmless` | src/core/IAPBoard.cpp:531-574 | reading the position changes neither the controller nor what ought to be displayed |
| `Decimal.IntTextReads` | src/core/IAPBoard.cpp:106-117 | a printed integer is matched in full by the report's number pattern and reads back as itself |
| `Decimal.AtoiOfDigits` | include/message.hpp:101-116 | reading a run of digits gives the number they stand for |
| `Report.WalkReport` | src/core/IAPBoard.cpp:543-566 | the loop over the text yields exactly the leftmost non-overlapping matches |
| `Report.ScanRender` | src/core/IAPBoard.cpp:543-566 | scanning a report gives its items in order, each id cut to its last digit; no match is missed or made up, for any order and any filler that forms no match |
| `Report.ReportReadFaithfully` | src/core/IAPBoard.cpp:543-566 | a report is read as it was meant if and only if every id is a single digit |
| `Report.MergeStores` | src/core/IAPBoard.cpp:555-566 | a registered id ends with the value of its last reading |
| `Report.MergeKeeps` | src/core/IAPBoard.cpp:564-565 | an id that is unregistered or not reported keeps what it had |
| `Controller.CommandTextInjective` | src/core/IAPBoard.cpp:93-117 | the text of a command the software itself sends determines command and argument |
| `Controller.FaithfulReportExists` | src/core/IAPBoard.cpp:543-566 | some text lets the pattern walk recover the true positions of given ids if and only if all of them are single digits: no report whatever gets through the position of axis 10 |
| `Controller.FaithfulReading` | src/core/IAPBoard.cpp:531-567 | every listed id of a faithful report is stored with its true position and other ids are left alone |
| `Config.PutThenFirst` | include/IAPBoard.hpp:116-152 | after `setAxisElement` the first-match getter sees the new element on that axis and every other node and element as before |
| `Config.PutThenGetLast` | include/IAPBoard.hpp:134-174 | `getAxisElement` returns what `setAxisElement` put, and 0 for an axis that is not in the file |
| `Config.GettersAgree` | include/IAPBoard.hpp:116-174 | with distinct ids the first-match and the last-match getter look at the same node |
| `Config.FirstAndLast` | include/IAPBoard.hpp:116-174 | with repeated ids `getaxispt` takes the first node and `getAxisElement` the last one |
| `Config.IAPConfig.GetAxisPt` | include/IAPBoard.hpp:116-130 | finds the first node with the id, or reports that there is none |
| `Config.IAPConfig.SetAxisElement` | include/IAPBoard.hpp:133-152 | writes the element into every node with the id and changes nothing else |
| `Config.IAPConfig.GetAxisElement` | include/IAPBoard.hpp:154-174 | returns the value of the last node with the id |
| `MoveLaws.MoveShape` | src/core/IAPBoard.cpp:489-528 | for every pattern of replies a move loop leaves the board's records alone, sends two commands per attempted move, and returns the code of the first rejected move or 0 |
| `MoveLaws.MoveScript` | src/core/IAPBoard.cpp:494-500 | the k-th attempted pair of commands selects the k-th named axis in id order and sends it its own value, which reaches the channel then selected |
| `MoveLaws.MoveOnTarget` | src/core/IAPBoard.cpp:495-497 | a move acts on its own axis if and only if its select was accepted, or none was so far and the controller stood there already |
| `MoveLaws.ChannelOrigin` | src/core/IAPBoard.cpp:495-497 | with an unaccepted select the move goes to an earlier axis of the same request or to the channel of before |
| `MoveLaws.MoveEffect` | src/core/IAPBoard.cpp:489-528 | with accepted selects a loop changes exactly the axes before the first rejected move |
| `MoveLaws.MoveDrives` | src/core/IAPBoard.cpp:489-528 | for every pattern of replies: what the channels hold afterwards, each move before the first rejected one acting by its own value on the channel it met |
| `MoveLaws.MoveBareDrives` | src/core/IAPBoard.cpp:489-528 | the same for the whole move; saving and restoring the channel drives nothing |
| `MoveLaws.MoveResult` | src/core/IAPBoard.cpp:489-528 | the result is negative if and only if some move command was rejected; rejected selects never show in it |
| `MoveLaws.PartialMove` | src/core/IAPBoard.cpp:489-528 | selects accepted: the axes moved are those before the first rejection in increasing id order, the result is negative if and only if a move was rejected, and the saved channel is selected afterwards either way |
| `MoveLaws.AcceptedMove` | src/core/IAPBoard.cpp:381-393 | an accepted move is one map update of the controller's positions, untouched elsewhere, and keeps an agreeing channel |
| `MoveLaws.MisdirectedMove` | src/core/IAPBoard.cpp:518-524 | counterexample on a valid board of two axes: with one lost select an absolute move reports success and drives the wrong axis |
| `MoveLaws.ChannelPutBack` | src/core/IAPBoard.cpp:381-393 | an accepted move restores the channel of before if and only if the current axis, or without one the stale saved axis, is that channel |
| `MirrorLaws.AllWritesEffect` | src/core/IAPBoard.cpp:93-101 | the nine accepted register writes copy the settings onto the selected channel and touch no other |
| `MirrorLaws.UpdateRecords` | src/core/IAPBoard.cpp:82-103 | whatever is accepted, a refresh begins by selecting its axis, and re-parses exactly that axis object exactly when the select is accepted |
| `MirrorLaws.UpdateMirrorsExactly` | src/core/IAPBoard.cpp:82-103 | after a refresh the axis object repeats the file if and only if the select was accepted or it did so before |
| `MirrorLaws.UpdateEffect` | src/core/IAPBoard.cpp:82-103 | all accepted: the axis's own channel and no other carries the file's settings, and that axis is current |
| `MirrorLaws.PreparedNodes` | src/core/IAPBoard.cpp:399-411 | the file updates before a refresh set position, offset and both limits of one axis as the phase demands and leave every other node alone |
| `MirrorLaws.ConfigureRecords` | src/core/IAPBoard.cpp:395-416 | with accepted selects the loop prepares every node and parses every axis object from it |
| `MirrorLaws.ConfigureChip` | src/core/IAPBoard.cpp:395-416 | all accepted: every channel carries its node's settings, and the last axis ends up selected and current |
| `MirrorLaws.ConfigureSettles` | src/core/IAPBoard.cpp:395-416 | all accepted: every axis object, its node and its channel agree fully, position included |
| `RunLaws.ExecShape` | src/core/IAPBoard.cpp:465-660 | no operation changes which axes there are, the shape of the tree or a unit factor in it, whatever is rejected |
| `RunLaws.ZeroEffect` | src/core/IAPBoard.cpp:609-612 | zeroing gives each axis its own read position as offset, in object and file alike |
| `RunLaws.SaveEffect` | src/core/IAP_server.cpp:184-203 | `savexml` stores the reported positions and nothing else |
| `RunLaws.MovesKeepParameters` | src/core/IAPBoard.cpp:489-528 | a move, accepted or not, never touches a parameter register |
| `InvariantLaws.ExecMirror` | src/core/IAPBoard.cpp:447-660 | every operation keeps axis objects and file in agreement; only `initialzero` needs its selects accepted |
| `InvariantLaws.ExecChip` | src/core/IAPBoard.cpp:447-660 | every operation keeps the controller's limits and speeds in agreement with the axis objects |
| `InvariantLaws.RunAgrees` | src/core/IAPBoard.cpp:447-660 | mirror invariant over any run of operations: axis objects, file and controller agree; moves, selects and queries may be rejected, only initialisations have to be accepted |
| `InvariantLaws.InitAxesAgrees` | src/core/IAPBoard.cpp:395-416 | an accepted `initAxes` establishes that agreement in either mode |
| `InvariantLaws.ConnectAgrees` | src/core/IAPBoard.cpp:172-197 | so does an accepted `connect`; the current axis then agrees with the selected channel if and only if the last axis is axis 1 |
| `InvariantLaws.UnknownSelected` | src/core/IAPBoard.cpp:447-462 | an accepted select of an id that is no axis moves the channel there and leaves the board without a current axis |
| `InvariantLaws.ExecAligned` | src/core/IAPBoard.cpp:381-480 | exactly when each accepted operation leaves current axis and selected channel in agreement |
| `InvariantLaws.ExecOffset` | src/core/IAPBoard.cpp:603-660 | one operation changes an axis's unit conversion in its offset only, and only by zeroing |
| `InvariantLaws.OffsetLaw` | src/core/IAPBoard.cpp:603-660 | after any run an axis has its configured factor and the offset its latest zeroing fixed; only the selects of initialisations and the reports read by zeroings are asked for |
| `InvariantLaws.DisplayLaw` | src/core/IAPBoard.cpp:569-574 | after any such run the display shows, for every axis, steps minus the offset of its latest zeroing, times its factor |
| `InvariantLaws.ZeroShowsZero` | src/core/IAPBoard.cpp:603-614 | right after `set zero` every axis shows exactly 0 |
| `InvariantLaws.ZeroTargetsHere` | src/core/IAPBoard.cpp:603-614 | right after `set zero` every axis that an absolute move sends to 0, alone or among others, targets its current step count |
| `InvariantLaws.ZeroOffsetRead` | src/core/IAPBoard.cpp:607-612 | the offset `SetZero` gives an axis, whatever was read: the value of the last reading that names it, or 0 |
| `InvariantLaws.ZeroOffsetExactly` | src/core/IAPBoard.cpp:607-612 | `SetZero` gives an axis its true step count as offset if and only if the last reading that names it is true, or none names it and it stands at 0 |
| `InvariantLaws.ZeroWithoutReport` | src/core/IAPBoard.cpp:607-612 | when the buffer holds no reading `SetZero` silently makes every offset 0 |
| `InvariantLaws.FinalLimits` | src/core/IAPBoard.cpp:634-652 | the final limits are, with a range factor r, -u and u where 2u is r times half turns times 200 to within two steps from below; without one, the forward and the negated backward constant with the fraction dropped; they enclose 0 for non-negative parameters, are symmetric if and only if a range factor is given or both constants have the same integer part, and nothing else but position and offset is reset |
| `InvariantLaws.PreliminaryLimits` | src/core/IAPBoard.cpp:399-411 | the preliminary limits are -u and u where 2u is the preliminary factor times half turns times 200 to within two steps from below; nothing else but position and offset is reset |
| `InvariantLaws.InitialisationDone` | src/core/IAPBoard.cpp:617-660 | after an accepted `SetInitialZero` object, node and channel agree, position register and offset are 0, and the chip's limits are the final ones of the node's range factor or constants, enclosing 0 for non-negative parameters |
| `InvariantLaws.InitModeOnce` | src/core/IAPBoard.cpp:656-659 | over any run the board is in initialisation mode if and only if it started so and no `initialzero` came |
| `RestartLaws.SavedTruth` | src/core/IAP_server.cpp:184-203 | with a faithful report `savexml` stores every axis's true position and nothing else |
| `RestartLaws.ConnectSettles` | src/core/IAPBoard.cpp:172-197 | an accepted `connect` brings objects, nodes and channels into full agreement; in normal mode the file is unchanged |
| `RestartLaws.ConnectInitialises` | src/core/IAPBoard.cpp:172-197 | in initialisation mode an accepted `connect` gives every axis, in the file and on the chip, position 0, offset 0 and the limits of its preliminary range |
| `RestartLaws.Restarted` | src/core/IAPBoard.cpp:120-163 | the saved file builds a usable board that has every old axis again |
| `RestartLaws.RestartKeepsPositions` | src/core/IAPBoard.cpp:82-103 | save, restart, connect: every axis stands at its old step count and shows its old user position |
| `ScriptLaws.ConnectScript` | src/core/IAPBoard.cpp:172-197 | `connect` sends `1ID`, then `1NC` and the largest id among the axes, and last `1CH1` and `1IR` |
| `ScriptLaws.UpdateScript` | src/core/IAPBoard.cpp:82-103 | a refresh sends `1CH` and the id, and after an accepted one the nine register commands `1sb` to `1sp` in the source's order with the values of the file |
| `ScriptLaws.MoveTexts` | src/core/IAPBoard.cpp:105-117 | a move sends `1CH` and the id, then `1MA` or `1MR` as asked, with that axis's own value |
| `ScriptLaws.QueryScript` | src/core/IAPBoard.cpp:531-541 | reading positions is one `1QP` |
| `ScriptLaws.ExecRemembers` | src/core/IAPBoard.cpp:281-299 | whatever an operation does, the board remembers the text of the latest error reply among its commands, and the old error without one |
| `ScriptLaws.RunRemembers` | src/core/IAPBoard.cpp:281-299 | the same over any run |
| `Board.DummyPosition.SetCoordinate` | include/position.hpp:143-149 | one coordinate is set, the others stay |
| `Board.DummyPosition.GetPositionString` | include/position.hpp:105-128 | one line per coordinate in id order |
| `Board.FreshMirrors` | src/core/IAPBoard.cpp:120-163 | a new board repeats its configuration file, axis by axis with id and descriptor, in the mode asked for, not connected, without a current axis or an error |
| `Board.IAPBoard.constructor` | src/core/IAPBoard.cpp:120-163 | one axis per node, in file order, parsed from the first node with its id |
| `Board.IAPBoard.SendCommand` | src/core/IAPBoard.cpp:281-306 | code and buffer text of the reply; only an error reply is remembered |
| `Board.IAPBoard.SendOverLine` | src/core/IAPBoard.cpp:216-299 | the whole way of a reply: read in pieces, judged, stripped, remembered when it is an error; the result is that of the classified reply |
| `Board.IAPBoard.GetAxis` | src/core/IAPBoard.cpp:432-438 | the first axis with the id, or none |
| `BoardSpec.FindFirst` | src/core/IAPBoard.cpp:432-438 | with repeated ids the first axis is found |
| `Board.IAPBoard.SetAxisNum` | src/core/IAPBoard.cpp:447-462 | the select is sent for unknown ids too, and the current axis follows an accepted one |
| `Board.IAPBoard.SaveSetAxisNum` | src/core/IAPBoard.cpp:465-480 | the same on the saved axis, the current one untouched |
| `Board.IAPBoard.SaveEnvironment` | src/core/IAPBoard.cpp:381-387 | remembers the current axis, if any |
| `Board.IAPBoard.RestoreEnvironment` | src/core/IAPBoard.cpp:389-393 | selects the remembered axis |
| `Board.IAPBoard.MoveBare` | src/core/IAPBoard.cpp:489-528 | both loops over a bare position, against the specification that MoveLaws analyses |
| `Board.IAPBoard.Conv2BarePosition` | src/core/IAPBoard.cpp:345-359 | the conversion loop, against the specification that ReadLaws analyses |
| `Board.IAPBoard.Conv2Position` | src/core/IAPBoard.cpp:361-378 | the loop back |
| `Board.IAPBoard.MoveUser` | src/core/IAPBoard.cpp:482-511 | converts, then moves; relative distances by the same conversion |
| `Board.IAPBoard.GetCurBare` | src/core/IAPBoard.cpp:531-567 | query, scan, and store the registered ids |
| `Board.IAPBoard.GetCurPosition` | src/core/IAPBoard.cpp:569-574 | the same in user units |
| `Board.IAPBoard.GetSoftLimits` | src/core/IAPBoard.cpp:576-595 | each axis, in file order, at its limit from the tree times its factor |
| `Board.IAPBoard.UpdateConfiguration` | src/core/IAPBoard.cpp:82-103 | -1 and nothing refreshed without the channel, else parse and write all registers |
| `Board.IAPBoard.SoftLimits` | src/core/IAPBoard.cpp:402-406 | limits from the `init` parameters, for both phases: the pair that `FinalLimits` and `PreliminaryLimits` bound |
| `Board.IAPBoard.ConfigureAxes` | src/core/IAPBoard.cpp:395-416 | the loop of `initAxes` and `SetInitialZero` |
| `Board.IAPBoard.LargestId` | src/core/IAPBoard.cpp:182-188 | the largest axis id, which the controller is told |
| `Board.IAPBoard.Connect` | src/core/IAPBoard.cpp:172-197 | the whole connection sequence |
| `Board.IAPBoard.SetZero` | src/core/IAPBoard.cpp:603-614 | read, then one offset per axis in object and file |
| `Board.IAPBoard.SetInitialZero` | src/core/IAPBoard.cpp:617-660 | refused outside initialisation mode, else the final configuration |
| `Board.IAPBoard.SaveXml` | src/core/IAP_server.cpp:184-203 | stores the reported positions, starting from an empty position |
| `Serial.Receive` | src/core/ctb.cpp:80-110 | a non-empty read is stored and terminated inside the buffer, an empty one changes nothing |
| `Serial.ReadReply` | src/core/IAPBoard.cpp:235-277 | the loop ends if and only if a burst is followed by an empty read, and then returns the concatenation of the first unbroken burst |
| `Serial.ChunkingIrrelevant` | src/core/IAPBoard.cpp:251-266 | any silence, then any cut of the same text into non-empty reads, then an empty read gives the same reply |
| `Serial.ReplyShapes` | src/core/IAPBoard.cpp:211-232 | a reply is text or error message, with exactly its body, depending on the fourth character alone |
| `Serial.JudgedExactly` | src/core/IAPBoard.cpp:216-299 | every reply: too short below five characters; otherwise an error if and only if its fourth character is `!`, and the text is what stands between that mark, blanks dropped, and the last two characters |
| `Serial.ThrowsExactly` | src/core/IAPBoard.cpp:216-232 | stripping throws if and only if there are only blanks between the leading characters and the last two |
| `Egun.RequestBracketed` | src/core/egun_cli.cpp:318-358 | the first search succeeds if and only if the request lies in the table's closed range, with a bracketing pair; otherwise it tells the side |
| `Egun.SegmentsMeet` | src/core/egun_cli.cpp:338-345 | neighbouring segments give the same correction at their common row |
| `Egun.CorrectionStretch` | src/core/egun_cli.cpp:135-140 | over the whole range of any calibrated table two requests stay apart by at least (1-k) times and at most their distance, so the correction is continuous and strictly increasing |
| `Egun.SentEnergyMonotone` | src/core/egun_cli.cpp:338-361 | the truncated integer sent never decreases when the request grows |
| `Egun.SecondSearch` | src/core/egun_cli.cpp:373-416 | the second search hits the segment of the first or the one before, and fails if and only if the corrected energy is below the table |
| `Egun.FindRequest` | src/core/egun_cli.cpp:318-350 | the first search as a loop |
| `Egun.FindCorrected` | src/core/egun_cli.cpp:373-416 | the second search as a loop |
| `Egun.SetEnergy` | src/core/egun_cli.cpp:313-418 | every outcome of an energy request: nothing sent outside the table; the energy alone when the corrected one is below the table or at its end; otherwise energy, X, Y and focus, each of the latter three its own column interpolated at one common fraction of the segment, scaled and truncated |
| `Egun.DefaultsAtRows` | src/core/egun_cli.cpp:384-415 | at the energy of a row the three values sent are that row's xdefl times 100, ydefl times 100 and vfocus times 10, truncated, whichever neighbouring segment is fitted |
| `Egun.DefaultsOnTheWay` | src/core/egun_cli.cpp:384-415 | inside a segment all three columns are interpolated at the same fraction, each between its own two values |
| `Egun.ShippedCalibrated` | src/core/egun_cli.cpp:175-198 | the shipped table has increasing energies, gentle slopes and modest shifts |
| `Egun.ShippedThreshold` | src/core/egun_cli.cpp:373-379 | for the shipped table the second search fails if and only if the request is below 10.4 |
| `Egun.SetShippedEnergy` | src/core/egun_cli.cpp:313-418 | with the shipped table requests in [10, 10.4) fail after the energy was already sent; for 10.4 eV exactly the energy 100 and the first row's 12, 0 and 139 |
| `Message.ParseHeader` | include/message.hpp:101-127 | no eight bytes whatsoever are accepted with a length above 1024 or a type outside the enumeration |
| `Message.HeaderRoundTrip` | include/message.hpp:101-144 | a written header is read back, unless its type is the invalid one, which is refused |
| `Message.HeaderLayout` | include/message.hpp:129-144 | a header is four digits of type, numbered 0 to 5 in the order of the enumeration, and four digits of length |
| `Message.DigitHeaders` | include/message.hpp:101-126 | of all headers of digits exactly those with a type below 5 and a length of at most 1024 are accepted, as that type and length |
| `Message.FramingRoundTrip` | src/core/IAP_client_cli.cpp:87-97 | any list of messages written back to back is read as the same list by eight bytes then the announced length |
| `Message.Msg.SetBodyLength` | include/message.hpp:94-99 | longer bodies are announced with the maximum |
| `Message.Msg.EncodeHeader` | include/message.hpp:129-144 | the wire bytes become the frame of this type and body, the body untouched |
| `Message.Msg.DecodeHeader` | include/message.hpp:101-127 | accepts exactly the good headers, with their type and length, and never records a length beyond the buffer |
| `Message.Msg.PutText` | include/IAP_server.hpp:50-64 | a text copied into the body, measured by `strlen`, leaves the frame of that text on the wire |
| `Protocol.StepKeeps` | include/IAP_server.hpp:66-110 | every atomic step of client threads, server and network keeps the protocol invariant, requests that end the server included |
| `Protocol.CallsGetTheirReplies` | src/gui/pm301.cpp:389-427 | for any process and under every interleaving of any number of threads each finished call returned what was made of its own request, in the state the earlier requests had left: "OK" for a success and the very body for every other type, errors included |
| `Protocol.OneMessageInFlight` | src/gui/pm301.cpp:391-427 | never bytes both ways, none without a lock holder, never more than one message |
| `Protocol.ClosedExactly` | include/IAP_server.hpp:66-110 | the connection is closed if and only if a request was processed that the server does not survive, and that one is the last |
| `Protocol.UsefulStep` | include/IAP_server.hpp:66-110 | unless the request at hand ends the server, some enabled step finishes the call or brings it nearer |
| `Protocol.CallCanFinish` | src/gui/pm301.cpp:389-427 | from every reachable state at most seven steps finish the lock holder's call if and only if the server is there and survives its request; otherwise no schedule finishes any call |
| `Connections.CourseInv` | src/core/IAP_server.cpp:70-104 | every step on any of the connections keeps the invariant of the whole site |
| `Connections.EveryCallAnswered` | src/core/IAP_server.cpp:70-104 | the same with any number of connections: "OK" for a success, the body of its own reply for every other type, in the state that everything processed before it had left |
| `Connections.EndedExactly` | src/core/IAP_server.cpp:70-104 | the server has ended if and only if a request was processed that it does not survive, and that one is the last |
| `Connections.EveryCallCanFinish` | src/core/IAP_server.cpp:70-104 | on every connection the lock holder's call can finish, within seven steps of that connection, if and only if the server survives its request as things stand |
| `Connections.OneMessageEach` | src/core/IAP_server.cpp:70-104 | while the server is there, no connection is closed and at most one message is in flight on each |
| `Server.Session.HandleReadHeader` | include/IAP_server.hpp:66-80 | the handler on the shared message is the server's header step |
| `Server.Session.HandleReadBody` | include/IAP_server.hpp:82-100 | the handler runs `process_msg` on the board and is the server's processing step, the reply overwriting the request in the same buffer with its length found again, or the server ending |
| `Server.Session.HandleWrite` | include/IAP_server.hpp:102-110 | after a full write the server waits for the next header |
| `Client.PM301.Prepare` | src/gui/pm301.cpp:393-396 | what is written is the frame of the request text, and the lock step leaves just that to be sent |
| `Client.PM301.TakeHeader` | src/gui/pm301.cpp:399-404 | the client's header step; a refused header ends the call with FAILURE |
| `Client.PM301.Result` | src/gui/pm301.cpp:423-426 | the client's body step: "OK" for a success and the body for every other type |
| `Parser.EscapedField` | include/helper.hpp:54-55 | the tokenizer gives back any escaped text up to the next separator |
| `Parser.QuotedField` | include/helper.hpp:54-55 | between quotes separators belong to the token |
| `Parser.EscapedNewline` | include/helper.hpp:54-55 | escape and `n` give a newline |
| `Parser.PrintedReads` | include/helper.hpp:54-72 | parsing an escaped, comma-separated token list means what the token list means, for every list of texts |
| `Parser.FieldsMeaning` | include/helper.hpp:57-70 | a token list is accepted if and only if every token has a delimiter; names are those of the tokens and a repeated name keeps its first value |
| `Texts.TrimBlanks` | include/helper.hpp:64-66 | trimming drops the blanks on both sides of a trimmed text and nothing else |
| `Texts.TrimParts` | include/helper.hpp:64-66 | every text is its trimmed text between blanks, and the trimmed text neither begins nor ends with one |
| `Parser.SpacedToken` | include/helper.hpp:61-66 | the name of a token is the text before the delimiter and its value the text behind it, both without the blanks around them |
| `Parser.BlanksIrrelevant` | include/helper.hpp:54-72 | two texts with the same names and values parse alike, wherever blanks stand around them |
| `Parser.TypedMeaning` | include/helper.hpp:54-72 | a text of names and values with any blanks around them is accepted and gives each name the value of its first entry |
| `Parser.SpacedPair` | include/helper.hpp:54-72 | `x = 1 , y = 2 ` is x at 1 and y at 2 |
| `Parser.ParseExactly` | include/helper.hpp:41-75 | for every text: the exception escapes if and only if there is a delimiter, a broken escape, and a delimiter in every token ended before it; the text is accepted if and only if there is no broken escape and all tokens have their delimiter, and then means what they mean |
| `Parser.TrailingEscapeThrows` | include/helper.hpp:54-55 | input for which it throws |
| `Parser.PlainParse` | include/helper.hpp:41-75 | on quote- and escape-free input parsing succeeds if and only if every comma-separated piece has its `=`, never throws, and gives each name its first value |
| `Parser.PrintParse` | include/helper.hpp:41-75 | printing any non-empty map of names to values, in any order, and parsing it returns the same map |
| `Parser.WholeNumbersTypeable` | include/helper.hpp:57-70 | whole numbers under any trimmed names without a delimiter are printed and read as the parser needs |
| `Parser.Tokenizer.Advance` | include/helper.hpp:54-55 | one token of the escaped list, with its throw on bad escapes and its flag for a trailing separator |
| `Parser.Parse` | include/helper.hpp:41-75 | the parser's loop over the tokenizer object |
| `Display.InitAxes` | src/gui/pm301.cpp:501-528 | names and units of the lines, in their order |
| `Display.GetCurPos` | src/gui/pm301.cpp:550-569 | the values of the lines as coordinates 1, 2, ... |
| `Display.GuiReadsAxes` | src/gui/pm301.cpp:511-527 | the printed axis table is read back in id order |
| `Display.GuiReadsPosition` | src/gui/pm301.cpp:550-569 | the printed position is read back, the k-th line as coordinate k |
| `Display.WholeNumbersLegible` | src/gui/pm301.cpp:554-562 | whole-numbered positions are printed and read as the GUI needs |
| `Display.GuiPositionExact` | src/gui/pm301.cpp:565-569 | the GUI's position equals the printed one if and only if its ids are 1 .. n |
| `Server.RequestedMore` | src/core/IAP_server.cpp:319-331 | with distinct ids resolving one more name sets one more coordinate, whatever the order |
| `Server.RequestedStores` | src/core/IAP_server.cpp:319-331 | for any board the last name, in the order of the map, that leads to an id decides its coordinate |
| `Server.RequestedWhere` | src/core/IAP_server.cpp:319-331 | with distinct ids an axis is in the requested position if and only if a name leads to it, with the value of that name |
| `Server.FirstNamed` | src/core/IAPBoard.cpp:120-163 | with repeated descriptors the first axis is named |
| `Server.Session.ResolveNames` | src/core/IAP_server.cpp:316-331 | succeeds if and only if every name is a descriptor, with the position the names stand for, taken in the order of the map |
| `Server.Session.MoveRequest` | src/core/IAP_server.cpp:311-361 | every outcome of a move request and the board it leaves |
| `Server.Session.PositionsRequest` | src/core/IAP_server.cpp:163-170 | the reply to `pp` |
| `Server.Session.BarePositionsRequest` | src/core/IAP_server.cpp:156-162 | the reply to `pbp` |
| `Server.Session.AxesRequest` | src/core/IAP_server.cpp:171-183 | the reply to `ga`, built line by line in id order |
| `Server.Session.SaveRequest` | src/core/IAP_server.cpp:184-205 | the reply to `savexml` and the tree it leaves |
| `Server.Session.SoftLimitsRequest` | src/core/IAP_server.cpp:206-235 | the reply to `psl` |
| `Server.Session.ForwardRequest` | src/core/IAP_server.cpp:364-372 | a command passed through: the controller's text, or the latest error |
| `Server.Replies` | src/core/IAP_server.cpp:106-376 | every reply has a valid type, and a request that ends the server has changed nothing before |
| `Server.Session.SelectRequest` | src/core/IAP_server.cpp:253-262 | the reply to `sa` |
| `Server.Session.JogRequest` | src/core/IAP_server.cpp:270-278 | the reply to jog commands, with the controller's text for an error |
| `Server.Session.InitialZeroRequest` | src/core/IAP_server.cpp:143-151 | refused in normal mode |
| `Server.Session.ProcessMsg` | src/core/IAP_server.cpp:106-376 | the dispatcher: reply and board state for every request text, branch by branch |
| `ServerLaws.MovedPositions` | src/core/IAPBoard.cpp:482-528 | an accepted move in user units returns 0 and puts every channel where the converted request says |
| `ServerLaws.AbsoluteMoveShown` | src/core/IAPBoard.cpp:506-528 | after an accepted absolute move each named axis shows within one step's worth of the request, every other axis as before |
| `ServerLaws.RelativeMoveShown` | src/core/IAPBoard.cpp:482-504 | an accepted relative move shifts the display by the converted distance, offset included, and nothing else |
| `ServerLaws.RequestReachesBoard` | src/core/IAP_server.cpp:311-361 | every well-formed text over known names reaches the board as the position its names stand for, and the reply tells the board's result |
| `ServerLaws.AbsoluteRequest` | src/core/IAP_server.cpp:311-361 | end to end, for every text the parser accepts whose names are known: an accepted `ma` request is answered with success and the position read back is within one step's worth of the request on every named axis and unchanged on every other |
| `ServerLaws.RelativeRequest` | src/core/IAP_server.cpp:311-361 | end to end for every such `mr` text, with the shift the code really makes |
| `ServerLaws.PrintedRequest` | include/helper.hpp:41-75 | the printed form of any map over descriptors is such a text and stands for that map |
| `ServerLaws.TypedRequest` | include/helper.hpp:41-75 | any list of names and values with blanks around them is such a text; its names are known if and only if all are descriptors |
| `ServerLaws.SpacingIrrelevant` | src/core/IAP_server.cpp:311-361 | blanks never change what a move request does: same board, same reply |
| `ServerLaws.BlanksAllowed` | include/helper.hpp:57-65 | `x = 1 , y = 2 ` is such a text, with all its blanks, and stands for x at 1 and y at 2 |
| `ServerLaws.RefusedRequest` | src/core/IAP_server.cpp:311-361 | a move request sends nothing and leaves the board alone if and only if its text is malformed or names something that is no axis; it is then never answered with success |
| `ServerLaws.StopsExactly` | src/core/IAP_server.cpp:311-315 | exactly which requests end the server, whatever the board's state |
| `ServerLaws.TrailingEscapeStops` | src/core/IAP_server.cpp:311-315 | input: `ma x=` followed by a backslash ends the server |
| `ServerLaws.RequestIsOperation` | src/core/IAP_server.cpp:106-376 | apart from passed-through commands every request is one of the operations of the run laws or leaves the board alone |
| `ServerLaws.RequestsAreRun` | src/core/IAP_server.cpp:106-376 | any list of request texts without passed-through commands is a run |
| `ServerLaws.RequestsAgree` | src/core/IAP_server.cpp:106-376 | the mirror invariant over any list of request texts |
| `ServerLaws.LimitsShown` | src/core/IAP_server.cpp:206-235 | `psl` shows both limits of the controller times the factor; each is the limit in the coordinates of `pp` if and only if the zero offset is 0 |
| `ServerLaws.ShownAxes` | src/core/IAP_server.cpp:163-170 | `pp` lists exactly the registered axes, whatever the controller reports |
| `ServerLaws.GuiShowsBoard` | src/gui/pm301.cpp:531-570 | the GUI's position is the board's, under the same ids, if and only if the ids are 1 .. n |
| `ServerLaws.GuiListsAxes` | src/gui/pm301.cpp:501-528 | from the reply to `ga` the GUI shows descriptors and units of all axes in id order |
| `ServerLaws.GuiAddressesAxes` | src/core/IAP_server.cpp:239-262 | every row of the GUI selects the axis it shows, by `sa` and by `set axis`, if and only if the ids are 1 .. n and n is at most 9 |
| `ServerLaws.TenthAxis` | src/gui/pm301.cpp:434-441 | with ids 1 .. 10 both requests of the tenth row are refused |
| `RequestLaws.BarePositionsReply` | src/core/IAP_server.cpp:156-162 | the text `pbp` is answered, in id order, with a line `desc: steps` for every axis: the last reading that names it, 0 without one |
| `RequestLaws.PositionsReply` | src/core/IAP_server.cpp:163-170 | the text `pp` is answered likewise with `desc[unit]: value`, the value converted with that axis's own factor and offset |
| `RequestLaws.FaithfulTells` | src/core/IAP_server.cpp:156-170 | with a faithful report these are the controller's true positions |
| `RequestLaws.AxesTable` | src/core/IAP_server.cpp:171-183 | the text `ga` is answered with a line `id:desc:unit` for every axis in id order |
| `RequestLaws.SaveStores` | src/core/IAP_server.cpp:184-205 | the text `savexml` stores in the node of every axis that was read its position, with a faithful report the true one; everything else in the nodes, other nodes, axes, channels and mode stay |
| `RequestLaws.SaveReply` | src/core/IAP_server.cpp:184-205 | its reply lists position, upper and lower limit of the axes that were read, line by line |
| `RequestLaws.SoftLimitsText` | src/core/IAP_server.cpp:206-235 | the text `psl` changes nothing and is answered with the upper limits of the file in user units, then the lower ones |
| `RequestLaws.ZeroRequest` | src/core/IAP_server.cpp:279-287 | the text `set zero` always succeeds; with a faithful report every axis object and node gets its true step count as offset and nothing else |
| `RequestLaws.InitialZeroRequest` | src/core/IAP_server.cpp:143-151 | the text `initialzero` is refused and changes nothing outside initialisation mode; in it, it succeeds, ends the mode and, with all commands accepted, leaves every axis with position and offset 0 and its final limits in object, file and chip |
| `RequestLaws.StateReply` | src/core/IAP_server.cpp:113-142 | the texts `state`, `close` and `help` change nothing and have these replies |
| `RequestLaws.JogRequests` | src/core/IAP_server.cpp:267-306 | `set jog` sends `1AR`, `unset jog` sends `1IR`, nothing else changes, and the reply is success or the controller's own error |
| `RequestLaws.SelectRequests` | src/core/IAP_server.cpp:239-262 | `sa` and `set axis ` with a digit both send `1CH` and that digit; an accepted one makes the axis with that id current, if there is one |
| `RequestLaws.PassThroughExactly` | src/core/IAP_server.cpp:364-366 | the pattern of commands that are passed through: one digit, letters, perhaps a minus, digits |
| `RequestLaws.ForwardedRequest` | src/core/IAP_server.cpp:364-372 | such a text goes over the line as it is and its reply comes back; after a short reply the error remembered before |
| `RequestLaws.UnknownRefused` | src/core/IAP_server.cpp:265-376 | everything else is refused with its own error text and changes nothing |
| `RequestLaws.MoveReplyTexts` | src/core/IAP_server.cpp:311-361 | for every `ma` or `mr` text that is answered: malformed texts and unknown names have their error texts and change nothing; any other is a success if and only if all move commands were accepted, and else reports the latest error |
| `SystemLaws.SurvivedExactly` | src/core/IAP_server.cpp:106-376 | the server survives a request if and only if it is none of those that end it and the reply fits the message |
| `SystemLaws.BoardKept` | src/core/IAP_server.cpp:106-376 | whatever the clients send, the board stays usable and keeps its axes |
| `SystemLaws.InterleavedCall` | src/gui/pm301.cpp:389-427 | with any number of connections each finished call returned the dispatcher's reply to its own request, "OK" for a success and the body for every other type, on the board that everything processed before it had left |
| `SystemLaws.InterleavedMoveResult` | src/gui/pm301.cpp:389-427 | what an interleaved `ma` or `mr` call returned, for every text: a refused one its error text, with the board as before; any other "OK" if and only if all its move commands were accepted, and else "Controller Error: " with the latest error |
| `SystemLaws.InterleavedMove` | src/gui/pm301.cpp:389-427 | from an interleaved `ma` call with any well-formed text over known names to what is read back: OK, and within one step's worth on every named axis, unchanged on every other |
| `SystemLaws.InterleavedDisplay` | src/gui/pm301.cpp:531-570 | when the next request processed is a `pp` from any connection, the GUI that sent it shows just that position under its own ids |
| `SystemLaws.SystemClosedExactly` | include/IAP_server.hpp:66-110 | the server ends if and only if some request, from whatever connection, ended it or had a reply too long for the message |
| `SystemLaws.SystemCallCanFinish` | src/gui/pm301.cpp:389-427 | while the server is there, a lock holder's call can finish by steps of its own connection if and only if it is answered already or not fatal to the board as it is |
| `SystemLaws.ProgramAgrees` | src/core/IAPBoard.cpp:120-197 | from any file with distinct ids, through an accepted `connect`, to any list of requests: axis objects, tree and controller agree |

## Left out

- XML reading and writing, command-line options, the SIGINT handler and what it saves when the program ends: file and process input and output; the tree is a sequence of nodes that always hold every element.
- Commands passed through to the controller may change channel and limits without the board's knowledge: they are processed and answered, but are no operation of a run.
- The controller's reaction to a rejected command, its motion over time, limit switches and the jog mode itself: a command either has its whole effect at once or none.
- `StripCtrlJunk` throwing on a blank reply also ends the program; `Controller.Reply` has no such case, `ThrowsExactly` says when it happens, and the results about requests that end the server assume that it does not.
- Floating-point rounding, six-digit float printing and the width of `long` and `int`: exact reals and unbounded integers; reading and printing of reals are parameters of the text theorems, met for instance by whole numbers.
- The three lookup maps of the board (descriptor, unit and inverse) are functions of the axis list, which no operation changes in ids, descriptors or units.
- Both move loops are one method with a flag, and the bodies of the configuration loops are shared between `initAxes` and `SetInitialZero`, which differ in the tree updates only; axes are values in a sequence, as in the source's vector, and a reference to an axis is its id.
- ServerLaws.AbsoluteRequest: asks for distinct axis ids, as do the other results about what each axis shows; the dispatcher itself is modelled for repeated ids, too.
- Server.Session.HandleReadBody: the reply text must be NUL-free and shorter than the buffer, as the source assumes; a failing socket, which deletes the session, is not modelled.
- Protocol.CallsGetTheirReplies: a reply that overruns the message buffer is counted as the end of the server, since nothing is certain after that; what the exception of a lost connection does to the client beyond releasing the lock is not modelled; fairness of the mutex and of the scheduler is not assumed, so waiting threads are not shown to be served.
- Egun.SetEnergy: the other gun controls, queries, the reply's number and the gun's own read loop, which drops the last three characters, are not modelled.
- The variant of the GUI's exchange that is not built, the `eos` unescaping, `helper::binary`, readline history, rs232 logging, sleep and batch handling, GUI widgets and everything under `tests/`, `rs232/` and `cmake/`.
