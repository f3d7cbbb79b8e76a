# yolink_health in Dafny

This project models the core of `yolink_health.py`, a monitor for YoLink IoT devices, and proves properties of that model. The monitor keeps a status table with one record per device name. Each record holds:

- the battery level;
- the current signal and the minimum signal seen;
- the time of the last update;
- the longest gap between updates, in minutes.

The modelled core covers:

- **Health** (`health.dfy`): the record and the update rules applied by `YL_on_message`.
  - A recognized event replaces the record. The minimum signal follows the source's min rule and the longest gap can only grow.
  - An excluded event refreshes only the sentinel device `!!!39W Office Temp-Hum`.
  - An online hub gets a fresh record.
  - The display pass extends every gap up to the minutes elapsed so far.
  - Also here: the recognized and excluded event tables, and the id-to-name lookup whose failure asks for a device-list reload.
- **TableCodec** (`table_codec.dfy`): the fixed-width status file.
  - `write_table` writes one line per device in sorted name order.
  - `load_table` reads fields back at fixed offsets after label searches and skips blank lines.
  - Under stated conditions, writing a table and loading it back gives the same table.
- **Alerts** (`alerts.dfy`): `check_status`.
  - Three threshold tests per device, in name order.
  - At most `max_alerts` numbered alerts.
  - Then "Yolink Devices AOK" when none went out, and "Excessive Yolink Alerts" once the count reaches `max_alerts`.
- **Config** (`config.dfy`): `get_config_string` and its typed wrappers, and `read_config_variables`.
  - The last `key = value` line for a key wins.
  - Reading stops at the first invalid value.
- **Monitor** (`monitor.dfy`): the main loop's state and one pass of its inner loop.
  - The status table, `file_dirty`, `current_decade`, `current_hour`, `current_dow`, the saved file and the messages sent.
  - The table is flushed when the ten-minute decade turns with unsaved changes.
  - The hubs are polled when the hour turns.
  - The display pass and alert sweep run when the day turns.
  - Also here: `get_decade`.

Supporting modules:

- `Maybe`: Option.
- `Text`: Python's `find`, slicing, `strip`, `ljust`, `rjust` and `split`.
- `Numerals`: `str(int)` and `int(str)`.
- `Order`: Python's string ordering and `sorted()` over a dict's keys.

How the program's outside world is modelled:

- Time is an integer number of seconds. `timestamp()`/`strptime` appear as a formatter `fmt` and a parser `parse` passed in as parameters.
- The clock readings of `get_decade`, `get_hour` and `get_dow` are parameters of a pass.
- A hub's answer to `get_device_status` is a parameter.
- `outbox` records the send requests `check_status` makes through `send_status_email`. With `send_status_emails` False the program delivers none of them, but they are still recorded. SMTP delivery itself is not modelled.
- Writing the status file is replacing `saved` with its lines.

Where the program's own comments, or a natural reading of them, differ from what the code does, the model follows the code:

- A recognized event without a signal field sets the minimum signal to unknown (`yolink_health.py:847-848`). It does not keep the previous minimum. See `Health.NoSignalForgetsMinimum`.
- A battery or signal field that is neither a placeholder nor an integer makes `int()` raise in `load_table` (`yolink_health.py:441-454`). It does not decode to unknown. `TableCodec.DecodeTable` returns `None` then.
- `write_table` has no error handling, and the dirty flag is cleared after writing (`yolink_health.py:627-649`). No failure path is modelled.

## Model

| member | source | states |
|---|---|---|
| Health.ElapsedMinutes | yolink_health.py:838 | `int(seconds/60)`: whole minutes truncated toward zero, bounded both ways by the elapsed seconds, also for negative intervals |
| Health.MinSignal | yolink_health.py:842-848 | the new minimum is known iff the signal is; it is at most the signal and at most a known previous minimum, and equals one of them |
| Health.Longest | yolink_health.py:839-840 | the gap only grows: at least the old gap and the elapsed minutes, and equal to one of them |
| Health.RecognizedUpdate | yolink_health.py:808-860 | the record written for a recognized event: the event's battery and signal, update time now; a new device starts with minimum = signal and gap 0; an existing one gets the min rule and the raised gap; consistency is kept |
| Health.SentinelUpdate | yolink_health.py:877-920 | the sentinel's excluded-event record: battery and signal unknown, minimum kept, time now, gap raised (0 for a new record) |
| Health.HubRecord | yolink_health.py:1228-1232 | an online hub's record: all readings unknown, time now, gap 0 |
| Health.Extend | yolink_health.py:668-678 | the display pass changes only the gap, raising it to the elapsed minutes when larger, and keeps consistency |
| Health.ExtendAll | yolink_health.py:657-678 | the display pass extends every record and keeps the key set |
| Health.Classify | yolink_health.py:797-805 | an event is excluded iff it is in the excluded table, recognized iff in the recognized table and not excluded |
| Health.Dispatch | yolink_health.py:786-921 | unknown device id iff unresolved; unsupported events are ignored; excluded events update only the sentinel and only when its online flag is truthy; recognized events always update, with `RecognizedUpdate` of the prior record |
| Health.AfterEvent | yolink_health.py:859-862 | an update stores the new record under the device and then the display pass extends every gap: the device's stored record and every other record come out as `Extend` of what they were; anything else leaves the table as it was |
| Health.PowerReportIsExcluded | yolink_health.py:924-967 | `Outlet.powerReport` is in both tables and is classified excluded |
| Health.ReplayMonotone | yolink_health.py:839-848 | across recognized events that all carry a signal, the minimum never rises and the longest gap never falls |
| Health.NoSignalForgetsMinimum | yolink_health.py:847-848 | a recognized event without a signal resets the minimum to unknown |
| Health.LeakSensorExample | yolink_health.py:830-860 | 80/-60, then 78/-65 ten minutes later, then -50 eight minutes later gives minimum -65 and longest gap 10 |
| Order.SortedOf | yolink_health.py:633 | `sorted()` of the keys: strictly ascending and holding exactly the keys |
| Order.SortedUnique | yolink_health.py:633 | there is only one strictly ascending listing of a set of names |
| Order.SortedNames | yolink_health.py:633 | computes the sorted key listing |
| Numerals.IntRoundTrip | yolink_health.py:443-454 | `int(str(i)) == i` |
| TableCodec.EncodeTable | yolink_health.py:633-643 | one line per name, the i-th line being the encoding of the i-th name's record |
| TableCodec.WriteTable | yolink_health.py:627-649 | `write_table` produces the encoding of the table in sorted name order |
| TableCodec.LoadTable | yolink_health.py:414-458 | `load_table` yields the decoding of the file's lines |
| TableCodec.BlankIsEmptyStripped | yolink_health.py:423 | a line is skipped iff `len(record.rstrip()) == 0` |
| TableCodec.BlankLineSkipped | yolink_health.py:422-423 | removing a blank line does not change what is loaded |
| TableCodec.LineFinds | yolink_health.py:427-437 | in a written line each label search finds its label at its fixed column |
| TableCodec.LineSlices | yolink_health.py:428-438 | the fixed-offset slices of a written line are exactly the written fields |
| TableCodec.KeyBack | yolink_health.py:424-426 | `record[2:32].rstrip()[:-1]` gives back a name shorter than 30 characters |
| TableCodec.BatteryBack | yolink_health.py:428-443 | a battery in 0..9 or unknown reads back from the column written for it |
| TableCodec.SignalBack | yolink_health.py:430-454 | a signal that fits in four characters, or unknown, reads back from its column |
| TableCodec.LineRoundTrip | yolink_health.py:414-456 | a written line loads back as the same name and record |
| TableCodec.EncodedNotBlank | yolink_health.py:423 | a written line is never skipped as blank |
| TableCodec.TableRoundTrip | yolink_health.py:414-458 | loading a written table gives the same table |
| Alerts.Conditions | yolink_health.py:740-756 | the alerts one device calls for: each is present iff its test holds (battery at most `min_battery`, signal below `min_signal`, age above `max_age_minutes`; unknown readings never alert) and carries the reading tested; there are exactly as many alerts as tests that hold, in the test order battery, signal, age |
| Alerts.Numbered | yolink_health.py:741-752 | the n-th alert is sent with subject "Yolink Device Alert n" |
| Alerts.CheckStatus | yolink_health.py:724-765 | `check_status` sends exactly the sweep of the table in sorted name order |
| Alerts.CheckDevices | yolink_health.py:727-756 | the device loop sends the alerts called for, device by device in name order, numbered from 1, as many as the budget allows, and counts them |
| Alerts.CheckDevice | yolink_health.py:740-756 | the three tests of one device extend the messages sent as the budget allows |
| Alerts.Send | yolink_health.py:740-743 | an alert goes out, numbered after those already sent, exactly while the count is below `max_alerts` |
| Alerts.CandidatesSound | yolink_health.py:740-756 | every alert called for names a device of the sweep and reports a threshold it really crosses |
| Alerts.CandidatesComplete | yolink_health.py:740-756 | every threshold a device crosses is called for |
| Alerts.CandidatesOrdered | yolink_health.py:727 | over sorted names, alerts come device by device in ascending name order |
| Alerts.SummariesOf | yolink_health.py:760-764 | the closing messages: AOK iff no alert went out, Excessive iff the count reached `max_alerts`, at most one of each, AOK first; neither is an alert |
| Alerts.SweepSummary | yolink_health.py:724-765 | alerts numbered 1..k with k = min(max(`max_alerts`,0), alerts called for), then exactly the closing messages for k, so the sweep has k + that many messages; AOK iff k = 0; Excessive iff the alerts called for reach `max_alerts` |
| Alerts.NoBudgetSendsBoth | yolink_health.py:740-764 | with `max_alerts` at most 0 the sweep is exactly AOK then Excessive |
| Alerts.SentAlertsAreReal | yolink_health.py:740-756 | every alert that goes out reports a real condition of a device in the table |
| Alerts.QuietSweep | yolink_health.py:760-761 | with no device over a threshold, the sweep is a single AOK message |
| Alerts.SweepNonEmpty | yolink_health.py:758-762 | every sweep sends at least one message: an alert, or else "AOK" |
| Alerts.BudgetExample | yolink_health.py:724-765 | three low batteries with `max_alerts` 2: alerts 1 and 2 for the first two names, then Excessive |
| Config.EqualsAt | yolink_health.py:196 | `line.find('=')`: the first '=', or -1 when there is none |
| Config.GetConfigString | yolink_health.py:187-214 | the value of the last matching entry, "" when none; an unreadable file reads nothing |
| Config.EntryMissing | yolink_health.py:196-204 | no value iff no line is an entry for the key |
| Config.EntryIsLastMatch | yolink_health.py:196-204 | a value found comes from a matching line after which no line matches |
| Config.EntryIgnoresOthers | yolink_health.py:196-204 | lines that are not entries for the key do not change its value |
| Config.FlagOf | yolink_health.py:223-230 | only "True" and "False" are flags |
| Config.GetConfig | yolink_health.py:217-263 | the typed wrappers on top of `get_config_string`, including the "" they return on an invalid value |
| Config.ReadConfig | yolink_health.py:151-184 | `read_config_variables` reads the sixteen keys in order, stopping after the first invalid one |
| Config.ConfigureValid | yolink_health.py:151-184 | the file ends valid iff every key reads well |
| Config.ConfigureAllGood | yolink_health.py:151-184 | when the file ends valid, exactly the keys looked up are set, each to its own setting |
| Config.ConfigureStops | yolink_health.py:151-184 | after the first invalid key nothing more is read, and that key holds "" |
| Config.UnreadableFile | yolink_health.py:192-210 | an unreadable file sets UAID to "" and stops |
| Config.EntryLineReadsBack | yolink_health.py:196-204 | a written `key = value` line is an entry for the key with that value |
| Config.LastWriteWins | yolink_health.py:196-204 | a value appended as the last entry for a key is the one read |
| Config.FlagRoundTrip | yolink_health.py:217-232 | True/False entries read back as the same flag |
| Config.IntegerRoundTrip | yolink_health.py:234-248 | integer entries read back as the same integer |
| Config.ListRoundTrip | yolink_health.py:250-263 | comma-joined entries read back as the same list |
| Monitor.DecadeIsTens | yolink_health.py:1082-1086 | `get_decade` is the minute's ten-minute slot, 0..5 |
| Monitor.Initial | yolink_health.py:1152-1155 | start-up state: clean table and hour and day-of-week no clock gives |
| Monitor.PollHubsResets | yolink_health.py:1223-1233 | the poll gives every online hub a fresh record whatever it held, adds missing ones, touches nothing else |
| Monitor.StepFlushes | yolink_health.py:1215-1220 | the table is written iff the decade turned with unsaved changes, and what is written is the table in name order |
| Monitor.StepDirty | yolink_health.py:1215-1233 | after a pass the table is unsaved iff changes survived an unturned decade or the hour turned and a hub answered; the display pass never marks it |
| Monitor.StepKeys | yolink_health.py:1223-1233 | a pass adds the online hubs when the hour turns and removes nothing |
| Monitor.StepSweeps | yolink_health.py:1236-1239 | messages go out only when the day turns, and then they are the non-empty sweep of the displayed table |
| Monitor.StepSettles | yolink_health.py:1213-1239 | a second pass with the same clock readings changes nothing |
| Monitor.FirstPass | yolink_health.py:1152-1239 | the first pass after start-up polls the hubs and runs the sweep |
| Monitor.StepKeepsConsistent | yolink_health.py:1213-1239 | a pass keeps every record consistent |
| Monitor.MessageMarks | yolink_health.py:786-920 | an event asks for a reload iff its device is unknown, and marks the table unsaved iff it updates a record |
| Monitor.Monitor.constructor | yolink_health.py:1152-1155 | the monitor starts in the initial state |
| Monitor.Monitor.OnEvent | yolink_health.py:770-922 | `YL_on_message` changes the state as `OnMessage` says |
| Monitor.Monitor.ExtendGaps | yolink_health.py:657-678 | the display pass replaces the table by its extension and changes nothing else |
| Monitor.Monitor.Poll | yolink_health.py:1225-1232 | the hub loop writes the poll's table and marks it unsaved iff a hub answered |
| Monitor.Monitor.Tick | yolink_health.py:1213-1239 | one pass changes the state as `Step` says |

## Left out

- Network and I/O: MQTT, the YoLink HTTP API, SMTP and file handles. Events, hub answers and clock readings are inputs; messages and the written file are outputs.
- Screen output: colours, `print`, logging, and the display text of `display_table`. Only the display pass's gap extension is modelled.
- The body text of the emails (timestamps, hours rounded to one decimal). Bodies are modelled as the device and reading they report.
- Timestamps: the `'%Y-%m-%d %I:%M:%S %p'` format and `strptime` are the parameters `fmt` and `parse`. Stored times are seconds, not text.
- The program keeps the update time and longest gap as text after loading and parses them when used. The model parses them at load.
- TableCodec.TableRoundTrip: holds only for tables meeting all of these conditions (`KeyOk` and `Writable`). `load_table` reads back one battery character and cuts names at column 32, and it finds each value by searching for the first occurrence of its label.
  - Each name is shorter than 30 characters and holds no `\n` or `\r`. `readlines()` would split the written line there.
  - `name + ":"` contains none of the five labels `Battery:`, `Current Signal:`, `Min Signal:`, `Last Update` and `Longest Update:`.
  - The battery is unknown or in 0..9.
  - The current and minimum signals are unknown or print in at most four characters.
  - The formatted timestamp is exactly 22 characters long, holds no `\n` or `\r`, does not start with whitespace, and does not contain `Longest Update:`.
  - The parser gives back the time the formatter was given.
- Config.EntryLineReadsBack, Config.LastWriteWins, Config.FlagRoundTrip, Config.IntegerRoundTrip, Config.ListRoundTrip: hold only for keys and values that hold no `\n` or `\r` (`KeyWritable`, `ValueWritable`). Reading the file line by line would split an entry there. The key also holds no `=` and does not end in a space, and the value has no space at either end.
- Numerals.ParseInt: does not accept the underscores or non-ASCII digits Python's `int()` accepts.
- Monitor.Step: `get_decade`, `get_hour` and `get_dow` are each called twice on a turn: once to test and once to store (`yolink_health.py:1216-1238`). The model reads each clock once per pass. If a reading changes between its two calls, the program stores the later value and so skips the next turn's write, poll or sweep. The model does not capture that.
- Token refresh, reconnection and the outer loop (`YL_establish_MQTT_connection`, `YL_get_device_list`). `reloadRequired` records when the inner loop would be left.
- Concurrency: the MQTT callback and the main loop share the table. The model runs events and passes one at a time.
