# pyOBDui telemetry core in Dafny

This project models the telemetry pipeline of pyOBDui without its I/O. The
application reads live data from a car's OBD-II adapter, stores it in SQLite
and fans it out to its UI. The model covers:

- **`OBDClient`** (`obd_client.dfy`). This is a class with the fields of the
  Python client:
  - the connection and the poll task, with the `start`/`stop` lifecycle;
  - one polling sweep over the sorted PIDs;
  - the serialisation of a response into a sample record;
  - the bounded, drop-oldest broadcast to subscriber queues;
  - the DTC read (DTC: diagnostic trouble code) and the DTC clear;
  - one iteration of the poll loop.

  The adapter is an oracle: the outcome of opening a connection and the
  reply to each query are parameters.
- **The subscriber queues** (`broadcast.dfy`): `asyncio.Queue(maxsize=256)`
  as a class over a `seq`.
- **`DataRepository`** (`repository.dfy`). This is a class holding the two
  tables of the SQLite file in memory, plus whether a connection is open and
  whether the schema exists.
- **The four SQL statements** (`db_queries.dfy`), as functions over the
  tables: the two inserts, the "latest row per pid" query and the DTC
  history query.
- **Configuration**:
  - `CarConfig` with its validation and defaults (`config_models.dfy`);
  - `_slugify` and the file names derived from a vehicle name, PID
    detection and the default fallback, and the order of the config list
    (`config_service.dfy`).
- **The interactive prompts of `main.py`** (`prompts.dfy`). The console is
  the sequence of lines the user types. Running out of lines stands for the
  `EOFError` that `input()` raises.

Supporting modules:

- `text.dfy` models Python's `str.strip()`, `str.lower()` and
  `str.isdigit()`.
- `ordering.dfy` models code-point string order and Python's stable
  `sorted`.
- `timestamps.dfy` models `isoformat(timespec="seconds")`, `str(datetime)`
  and the grammar `datetime.fromisoformat` documents up to Python 3.10:
  `YYYY-MM-DD`, optionally followed by one separator character, a time
  `HH[:MM[:SS[.fff[fff]]]]` and an offset `+HH:MM` or `-HH:MM`.
- `samples.dfy` models sample dictionaries and their JSON round trip.
- `common.dfy` holds `Option`, `Result` and `Outcome`.

Behaviour of the code that the model keeps as written:

- `sorted_pids` keeps duplicates.
- An unknown PID is looked up again on every sweep. Only its warning is
  suppressed after the first time.
- The latest query returns every row tied at the string maximum of
  `recorded_at`.
- A closed repository reopens on the next call.
- `start` does nothing while a poll task exists, even one whose loop has
  ended. Otherwise it opens a new connection, and one that `read_dtcs`
  opened before is replaced without being closed.
- The polling-interval prompt refuses only values that are not positive.
  An entry such as 0.05 therefore passes the prompt and then fails
  `CarConfig` validation (`Prompts.SubFloorIntervalRejected`).

The clock is an `Instant` parameter. A failed write to the database is a
`fault` parameter of the write operations. The python-OBD command table is
a map from name to command.

## Model

All paths are relative to the repository root.

| member | source | states |
|---|---|---|
| Text.StripSpec | src/pyobdui/main.py:122 | `str.strip()` returns the middle of the string between two runs of whitespace. Neither end of the result is whitespace, and the result is empty exactly when the input is all whitespace. |
| Text.Lower | src/pyobdui/configs/service.py:180 | `str.lower()` leaves no ASCII capital letter, and is empty exactly when its input is. |
| Text.LowerIdentity | src/pyobdui/configs/service.py:180 | A string without capitals, the Kelvin sign or U+0130 is its own lower case. |
| Ordering.SortStringsSpec | src/pyobdui/configs/models.py:45 | `sorted` returns an ascending permutation of its argument, duplicates included. |
| Ordering.SortBySorted | src/pyobdui/configs/service.py:53 | The sort by key orders its result by that key, ascending or descending. |
| Ordering.SortByStable | src/pyobdui/configs/service.py:53 | The sort is stable: the elements with any one key keep their relative order. |
| Timestamps.FromIsoFormat | src/pyobdui/db/repository.py:146 | `fromisoformat` yields only valid date-times, the date fields are the date's digits, and a date alone is midnight with no offset. |
| Timestamps.DateTimeStrRoundTrip | src/pyobdui/db/repository.py:146 | `fromisoformat` reads back what `str(datetime)` writes, separated by a space, microseconds and offset included. |
| Timestamps.DateOnlyExample | src/pyobdui/db/repository.py:146 | `2024-05-01` reads as midnight of that day. |
| Timestamps.MinutesExample | src/pyobdui/db/repository.py:146 | `2024-05-01T12:30` reads with the seconds left at zero. |
| Timestamps.MillisecondsClockExample | src/pyobdui/db/repository.py:146 | A three-digit fraction `.250` is 250000 microseconds. |
| Timestamps.RejectedExamples | src/pyobdui/db/repository.py:146 | An impossible date, a one-digit month and a separator with no time are refused. |
| Timestamps.IsoSecondsRoundTrip | src/pyobdui/db/repository.py:146 | A time written with `isoformat(timespec="seconds")` reads back as the same instant to the second, offset included. |
| Samples.Reencode | src/pyobdui/db/repository.py:86 | The stored payload has the sample's keys. Each value comes back as it was, except that a datetime comes back as `str(datetime)`. |
| DbQueries.ExecuteManyTelemetry | src/pyobdui/db/constants.py:3-6 | A batch of `TELEMETRY_INSERT` appends the rows in order and leaves every existing row unchanged. |
| DbQueries.ExecuteManyDtc | src/pyobdui/db/constants.py:20-23 | A batch of `DTC_INSERT` appends the rows in order and leaves every existing row unchanged. |
| DbQueries.MaxRecordedAtSpec | src/pyobdui/db/constants.py:12-14 | The group maximum exists exactly for the pids in the table. It is the `recorded_at` of one of that pid's rows, and no row of the pid exceeds it as a string. |
| DbQueries.Tied | src/pyobdui/db/constants.py:11-16 | The join keeps exactly the rows equal to their pid's maximum, each as often as it is stored. |
| DbQueries.LatestRowsAreTheLatest | src/pyobdui/db/constants.py:8-17 | Every returned row is stored and no row of its pid is later. Every stored row tied at the maximum is returned, as often as it is stored. |
| DbQueries.LatestRowsCoverEveryPid | src/pyobdui/db/constants.py:11-16 | Every pid present in the table appears in the result. |
| DbQueries.LatestRowsOrderedByPid | src/pyobdui/db/constants.py:17 | The result is ordered by pid, ascending. |
| DbQueries.LatestRowsExample | src/pyobdui/db/constants.py:8-17 | RPM rows at T1 < T2 < T3 plus a SPEED row at T1 give exactly RPM@T3 and then SPEED@T1. |
| DbQueries.DtcHistoryIsHistory | src/pyobdui/db/constants.py:25-30 | The history is newest first. It holds as many rows as the limit allows (all rows for a negative limit), all of them stored, and no row left out is newer than one returned. |
| Repository.EnsureIsoTimestamp | src/pyobdui/db/repository.py:169-174 | The result is never empty. A non-empty string is kept, a datetime is written to the second, and anything else becomes the current time. |
| Repository.EnsureIsoTimestampIdempotent | src/pyobdui/db/repository.py:169-174 | Normalising a normalised timestamp again changes nothing, whatever the clock says then. |
| Repository.TelemetryRowsFor | src/pyobdui/db/repository.py:82-89 | There is one row per sample, in order. Each row holds the sample's pid, its normalised `recorded_at` and the whole sample. The batch fails with a `NOT NULL` error exactly when some sample has no string pid. |
| Repository.WithColumnDefaults | src/pyobdui/db/repository.py:107-108 | The payload's own `pid` and `recorded_at` win. Only missing keys are filled from the columns, and no other key changes. |
| Repository.LatestSamples | src/pyobdui/db/repository.py:104-110 | There is one sample per row of the latest query, in order, each with its column defaults. |
| Repository.DtcRowsFor | src/pyobdui/db/repository.py:124-125 | There is one row per code, in order. All rows share one timestamp and store `cleared` as 1 or 0. |
| Repository.DtcRecordsFor | src/pyobdui/db/repository.py:142-150 | Records come back in row order with code and description unchanged, the parsed timestamp and `bool(flag)`. The read fails exactly when some timestamp does not parse. |
| Repository.DtcAppendReadBack | src/pyobdui/db/repository.py:120-150 | Codes appended in one batch read back with the same code, description and cleared flag, stamped with the time of the append to the second. |
| Repository.InsertOutcome | src/pyobdui/db/repository.py:79-92 | A non-empty batch is stored exactly when the table exists, every sample has a pid and the write succeeds. Otherwise the first of these that fails is the error. |
| Repository.AppendOutcome | src/pyobdui/db/repository.py:123-130 | A non-empty list is stored exactly when the table exists and the write succeeds. |
| Repository.DataRepository.constructor | src/pyobdui/db/repository.py:30-33 | A new repository has no connection and keeps what the file already holds. |
| Repository.DataRepository.EnsureConnection | src/pyobdui/db/repository.py:162-166 | Afterwards a connection is open, and no table changes. |
| Repository.DataRepository.Initialize | src/pyobdui/db/repository.py:35-70 | Afterwards the schema exists and a connection is open. Because of `IF NOT EXISTS`, no row changes, so a second call has no further effect. |
| Repository.DataRepository.InsertSamples | src/pyobdui/db/repository.py:72-92 | An empty batch touches nothing. Otherwise a connection is opened and the rows of the batch are appended as a whole, or on an error not at all. The DTC table never changes. |
| Repository.DataRepository.FetchLatestSamples | src/pyobdui/db/repository.py:94-110 | The result is the latest query with column defaults, or a missing-table error. No table changes. |
| Repository.DataRepository.AppendDtcCodes | src/pyobdui/db/repository.py:112-130 | An empty list touches nothing. Otherwise one batch is appended, stamped with the current time to the second. |
| Repository.DataRepository.FetchDtcHistory | src/pyobdui/db/repository.py:132-150 | The result is the history query with its limit, turned into records. No table changes. |
| Repository.DataRepository.Close | src/pyobdui/db/repository.py:152-157 | Afterwards no connection is open, and the tables are kept. Closing a repository that was never opened is safe. |
| ConfigModels.NewCarConfig | src/pyobdui/configs/models.py:12-34 | Validation accepts the given fields unchanged exactly when `polling_interval >= 0.1`. Otherwise it reports the interval. |
| ConfigModels.DefaultCarConfig | src/pyobdui/configs/models.py:18-34 | By default there are no PIDs, no metadata and no `created_at`, with an interval of 1.0. Such a config is valid. |
| ConfigModels.SortedPids | src/pyobdui/configs/models.py:42-45 | The result is an ascending permutation of `supported_pids` with duplicates kept. The config itself is a value and is not changed. |
| ConfigService.CollapseShape | src/pyobdui/configs/service.py:180 | The substitution keeps the letters and digits in order, with only single dashes between them. |
| ConfigService.TrimDashesKeeps | src/pyobdui/configs/service.py:181 | `strip("-")` removes only dashes. |
| ConfigService.Slugify | src/pyobdui/configs/service.py:178-182 | The slug has only `a-z`, `0-9` and `-`. It never starts or ends with a dash, never has two dashes in a row, and is never empty. It is "vehicle" when the stripped, lower-cased name has no ASCII letter or digit. Otherwise it has exactly those letters and digits. |
| ConfigService.SlugFixed | src/pyobdui/configs/service.py:178-182 | Every slug is its own slug. |
| ConfigService.SlugifyIdempotent | src/pyobdui/configs/service.py:178-182 | `slug(slug(x)) == slug(x)`. |
| ConfigService.SameFilesIffSameSlug | src/pyobdui/configs/service.py:170-176 | The file names are the slug plus `.json` or `.db`. Two names share a file exactly when their slugs are equal. |
| ConfigService.SortedNameSet | src/pyobdui/configs/service.py:153 | The names are strictly ascending, hence free of repeats. A name is included exactly when some command has it and it is non-empty. |
| ConfigService.DetectSupportedPids | src/pyobdui/configs/service.py:132-158 | An open error, a disconnected adapter or an empty command list is an error. Commands without names give the defaults. Otherwise the result is the sorted set of names, and it is never empty. |
| ConfigService.CreateConfig | src/pyobdui/configs/service.py:88-121 | The PIDs are the detected ones when detection is on and succeeds, and a copy of the defaults otherwise. The other fields are as given, with the database path from the slug and the creation time. Validation fails exactly when the interval is below 0.1. |
| ConfigService.Loaded | src/pyobdui/configs/service.py:48-52 | Exactly the configs that passed validation are kept. |
| ConfigService.ListConfigs | src/pyobdui/configs/service.py:44-54 | The result is the valid configs sorted by lower-cased name, as a permutation, with equal keys kept in path order. |
| Prompts.ClassifyChoiceSpec | src/pyobdui/main.py:73-89 | After strip and lower-casing, "q"/"quit" quits and "n"/"new" creates. A digit string k selects `configs[k-1]` exactly when 1 <= k <= len(configs), and is out of range otherwise. |
| Prompts.PromptForConfiguration | src/pyobdui/main.py:59-89 | The first line that quits, creates or selects decides, and every earlier line prompted again. Input ends only when no line decides. `n` returns exactly what `create_configuration` makes of the lines after it. |
| Prompts.ClassifyAnswer | src/pyobdui/main.py:246-253 | Blank gives the default, "y"/"yes" gives yes, "n"/"no" gives no, and anything else asks again. |
| Prompts.AskYesNo | src/pyobdui/main.py:243-253 | The first answer that is not "ask again" decides, through the default for a blank line. Input ends only when every line asks again. |
| Prompts.FirstNonBlank | src/pyobdui/main.py:119-125 | This is the index of the first line that is not all whitespace. |
| Prompts.PromptNonEmpty | src/pyobdui/main.py:119-125 | The result is the first non-blank line, trimmed: it is non-empty and neither end is whitespace. |
| Prompts.PortFromSpec | src/pyobdui/main.py:98 | A blank port line gives the default port. Otherwise the result is the trimmed line. |
| Prompts.PollingIntervalFromSpec | src/pyobdui/main.py:128-143 | The result is always positive. It is 1.0 for a blank, unparsable or non-positive entry, and the entered value otherwise. |
| Prompts.SubFloorIntervalRejected | src/pyobdui/main.py:138-143 | 0.05 passes the prompt and then fails the 0.1 bound of the config. |
| Prompts.FirstIndex | src/pyobdui/main.py:157 | This is the position of the first `=`. |
| Prompts.ClassifyEntry | src/pyobdui/main.py:151-153 | A metadata line ends the input exactly when it is blank after stripping. |
| Prompts.ClassifyEntrySpec | src/pyobdui/main.py:151-160 | A blank line ends the input and an entry without `=` is refused. Other entries split at the first `=` only, so the value may contain `=`. Both sides are trimmed. An entry is refused as an empty key exactly when the text before its first `=` is blank. |
| Prompts.ApplyLastWins | src/pyobdui/main.py:161 | A key is present exactly when some entry set it, and it holds the value of its last entry. |
| Prompts.ApplyKeysTrimmed | src/pyobdui/main.py:157-161 | Every stored key is non-empty and trimmed. |
| Prompts.PromptMetadata | src/pyobdui/main.py:146-162 | The entries are applied in order up to the first blank line. Input ends only when no line is blank. |
| Prompts.ReadConfigAnswers | src/pyobdui/main.py:97-101 | The answers come from fixed positions. The name is the first non-blank line, the next two lines give the port and the interval, and metadata lines follow. |
| Prompts.CreateConfiguration | src/pyobdui/main.py:92-116 | The answers go to `create_config` with detection on. The config carries the trimmed name, the chosen port, the interval and the metadata. The input ends early exactly when the answers run out. The creation is rejected, with the value, exactly when the interval read is below the minimum. |
| Broadcast.OfferedSpec | src/pyobdui/obd_connection/client.py:187-197 | A queue with room gets the sample at the back. A full queue drops exactly its oldest item, gets the sample at the back and stays at 256. |
| Broadcast.OfferAllKeepsNewest | src/pyobdui/obd_connection/client.py:187-197 | After a batch, a queue holds exactly the newest 256 items of its old contents followed by the batch, in batch order, and never more than 256. |
| Broadcast.OfferAllOverflow | src/pyobdui/obd_connection/client.py:79 | An empty queue offered 512 samples keeps the last 256 of them. |
| Broadcast.SampleQueue.constructor | src/pyobdui/obd_connection/client.py:79 | A new queue is empty. |
| Broadcast.SampleQueue.PutNowait | src/pyobdui/obd_connection/client.py:190 | The item is refused when the queue is full, and appended otherwise. |
| Broadcast.SampleQueue.GetNowait | src/pyobdui/obd_connection/client.py:194 | The oldest item is removed and returned. |
| Broadcast.SampleQueue.Offer | src/pyobdui/obd_connection/client.py:189-197 | A put, or on `QueueFull` a get and then a put. This keeps the queue within its capacity. |
| ObdClient.ExtractUnit | src/pyobdui/obd_connection/client.py:222-226 | The unit is set exactly when the value has truthy units. |
| ObdClient.ExtractNumeric | src/pyobdui/obd_connection/client.py:229-239 | The result is the magnitude of a quantity unless converting it raises, the number itself for a number, and `None` otherwise. |
| ObdClient.SerializeResponse | src/pyobdui/obd_connection/client.py:199-219 | `pid` is the command name, and `description` and `recorded_at` are always set. A missing or null response gives status "no_data" and only those four keys. Otherwise the status is "ok", `raw == display == str(value)`, and the unit and value are extracted. |
| ObdClient.KeptSpec | src/pyobdui/obd_connection/client.py:159-173 | A PID produces a sample exactly when it resolves and its query does not raise. The kept PIDs are a sub-sequence, so they stay ascending. |
| ObdClient.SweepSpec | src/pyobdui/obd_connection/client.py:159-173 | There is one sample per kept PID, in the same order, serialised from that PID's command and reply. |
| ObdClient.SweepInPidOrder | src/pyobdui/obd_connection/client.py:159-173 | A sweep over `sorted_pids()` gives samples in ascending PID-name order, for exactly the configured PIDs that resolve and answer. |
| ObdClient.RemoveFirstSpec | src/pyobdui/obd_connection/client.py:88-90 | Removing a queue from a list without repeats takes out exactly that queue. The others keep their order. |
| ObdClient.DtcCodes | src/pyobdui/obd_connection/client.py:99-101 | There are no codes for a missing, null or empty reply. Otherwise there is every pair in order, with an empty description as `None`. |
| ObdClient.OBDClient.constructor | src/pyobdui/obd_connection/client.py:31-40 | A new client has no connection, no task, no subscribers and no missing PIDs. |
| ObdClient.OBDClient.OpenConnection | src/pyobdui/obd_connection/client.py:116-128 | A connection that is not connected is closed again, and the error names the port. |
| ObdClient.OBDClient.EnsureConnection | src/pyobdui/obd_connection/client.py:130-133 | A connection is opened only when there is none. |
| ObdClient.OBDClient.Start | src/pyobdui/obd_connection/client.py:49-59 | With a poll task present, nothing changes: no second connection and no schema work. Otherwise the schema is created and a connection opened. On success the task runs with the stop event cleared. A failed open closes that handle, raises the error naming the port and creates no task. |
| ObdClient.OBDClient.Stop | src/pyobdui/obd_connection/client.py:61-74 | Afterwards there is no task and no connection. Only an open connection is closed, so a never-started client closes nothing and a second `stop` changes nothing. |
| ObdClient.OBDClient.Subscribe | src/pyobdui/obd_connection/client.py:79-81 | A fresh, empty queue is appended to the subscribers. |
| ObdClient.OBDClient.Detach | src/pyobdui/obd_connection/client.py:87-90 | Exactly this queue is removed. The other subscribers and every queue's contents are unchanged. |
| ObdClient.OBDClient.Broadcast | src/pyobdui/obd_connection/client.py:182-197 | Every subscriber receives the whole batch in order, and every queue stays within 256. Queues are handled independently and the subscriber list is not changed. |
| ObdClient.OBDClient.ResolveCommand | src/pyobdui/obd_connection/client.py:175-180 | The command is looked up every time. An unknown name is recorded, and warned about only when it was not recorded before. |
| ObdClient.OBDClient.CollectSamples | src/pyobdui/obd_connection/client.py:155-173 | The result is the sweep over `sorted_pids()`, and every unknown PID is added to the missing set. |
| ObdClient.OBDClient.PollInterval | src/pyobdui/obd_connection/client.py:137 | The wait is `max(polling_interval, MIN_POLL_INTERVAL)`. |
| ObdClient.OBDClient.PollIteration | src/pyobdui/obd_connection/client.py:135-153 | A set stop event ends the loop. A non-empty batch is stored first and then broadcast, and an empty batch is neither stored nor broadcast. A storage error ends the loop, sets the stop event and skips the broadcast. |
| ObdClient.OBDClient.ReadDtcs | src/pyobdui/obd_connection/client.py:92-104 | A connection is opened if none exists. A missing, null or empty reply gives no codes and persists nothing. Otherwise the codes are persisted, uncleared, only when `persist` is set, and storage errors propagate. A connection that cannot be opened leaves none and reports `OBDConnectionError` with the port, or the constructor's exception. An exception from the query propagates and nothing is persisted. |
| ObdClient.OBDClient.ClearDtcs | src/pyobdui/obd_connection/client.py:106-111 | The clear goes over an open connection, opened if needed. It succeeds exactly when a connection is open and the query does not raise. A connection that cannot be opened leaves none and reports the same errors as `read_dtcs`. Nothing is written to the repository. |

## Left out

- I/O, concurrency and timing are not modelled:
  - SQLite, the PRAGMAs and the file system;
  - `asyncio` tasks, locks, `to_thread` and `wait_for`;
  - the Qt UI and logging.

  Each operation runs atomically, and the poll loop is modelled one
  iteration at a time. The sleep between iterations is the returned
  interval.
- Default arguments are explicit parameters that every caller passes:
  `limit=100` of `fetch_dtc_history`, `persist=True` of `read_dtcs`,
  `cleared=False` of `append_dtc_codes`, and `metadata=None`,
  `polling_interval=1.0` and `auto_detect=True` of `create_config`.
- `MIN_POLL_INTERVAL` and `DEFAULT_ADAPTER_PORT` are parameters. The files
  that define them are not part of this model.
- python-OBD is an oracle:
  - the command table is a map from name to command;
  - `query` is a function from command to reply;
  - `str(value)`, the truthiness of `units` and `float(magnitude)` are
    fields of the value.

  An `OBDResponse` object that is present counts as truthy.
- The clock is read once per operation: all samples of one sweep share one
  instant. The code reads it once per serialised sample.
- Floating point is not modelled. Intervals and numeric values are reals,
  and `float(...)` parsing in the interval prompt is an oracle.
- JSON encoding is abstract. The stored payload is the sample map with
  datetimes turned into `str(datetime)`.
- Repository.DataRepository.InsertSamples: a batch is written all or
  nothing. SQLite's `executemany` without an explicit transaction is not
  modelled row by row. Only a string `pid` passes the `NOT NULL` column;
  SQLite's storage of other types in a TEXT column is not modelled.
- Repository.DataRepository.InsertSamples: `_ensure_iso_timestamp` reads the
  clock once per batch.
- ConfigService.DatabasePathFor: `.resolve()` is not modelled. The path is
  the database root plus the file name.
- ConfigService.DetectSupportedPids: the closing of the probe connection,
  the `ImportError` of a missing python-OBD, and the timeout are not
  modelled.
- ConfigService.CreateConfig: writing the config file (`save_config`) and
  pydantic's type coercion are not modelled.
- ConfigService.ListConfigs: the directory listing, the file reads and
  JSON validation are inputs. The in-place `list.sort` is modelled as a
  stable sort on a sequence. The sort key lowers ASCII letters only (see
  Text.Lower), so names such as `Élan` and `éclair` may sort differently
  from Python.
- Timestamps.FromIsoFormat: models the grammar documented up to Python 3.10.
  The forms Python 3.11 added are refused: compact `YYYYMMDD` dates, week
  dates, `Z`, and fractions of other lengths than three or six digits. An
  offset with seconds (`+HH:MM:SS[.ffffff]`) is also refused, where Python
  accepts it. The stored timestamps are written by `isoformat` and never
  have one.
- Prompts.PromptForConfiguration: the config list is read once, where the
  code re-reads it on every iteration. `sys.exit(0)` on quit is the result
  `Exited`.
- Prompts.ClassifyChoice: `str.isdigit()` and `int()` are modelled for
  ASCII digits only.
- Text.Lower: case mapping covers ASCII plus the two characters outside
  ASCII that lower-case to ASCII letters; other characters are kept.
  Unicode normalisation is not modelled.
- ObdClient.OBDClient.Stop: awaiting the poll task is immediate. The
  model does not run the loop's last iteration in between.
- `stream`'s blocking `await queue.get()` is not modelled. The consumer
  side is `SampleQueue.GetNowait`.
- The async context manager (`__aenter__`/`__aexit__`) is not modelled; it
  is `start` and `stop`.
