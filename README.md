# Accelerometer-to-BLE pipeline and activity-data preparation, in Dafny

This project models two pieces of one repository. The first is a Zephyr firmware
(`src/main.c`). It wakes a worker thread from the BMA400 accelerometer's interrupt,
powers the SPI bus, reads one sample, and pushes it to a connected Bluetooth LE peer
as a 6-byte little-endian record. The second is a Python training script (`example.py`).
It labels recordings by file name, cuts them into 25-row sliding windows shaped
(3, 25, 1), and encodes the labels as class indices.

Modules:

- `Payload` (`payload.dfy`): the `int16_t` byte encoding of `send_accel_notification`, with the peer's decoding as its inverse.
- `Firmware` (`firmware.dfy`): class `Board` holds the globals the firmware updates in place. These are `accel_value` and `rx_buffer` (arrays), `current_conn`, the `bma400_ready` semaphore count, the `spi1` power state and `acc_data`. A ghost trace records every call into a collaborator: the SPI driver, power management, the BMA400 library and GATT notify. What those collaborators return is a parameter of the method that calls them. This includes the result of every `pm_device_action_run`: the code ignores that result, but the power state changes only when the action succeeds. The pure functions `SemAfter`, `Wakes`, `ConnAfter`, `HeldAfter`, `PowerAfter`, `SampleAfter` and `ValueAfter` give the state after a schedule of interrupts, callbacks and worker turns.
- `Labels` (`labels.dfy`): Python's string order, `sorted(set(...))`, `label_to_int`, `int_to_label` and `y`.
- `Dataset` (`dataset.dfy`): `Path.stem`, label extraction, `load_csv_data` and `create_windows`. Rows are a three-field datatype over an abstract element type, so no floating point is involved.
- `Wrappers` (`wrappers.dfy`): `Option`.

How C is modelled. `int16_t` and `uint8_t` are subset types of `int`. The shift `v >> 8` on a negative `int16_t` is taken as an arithmetic shift, which is floor division. The mask `& 0xFF` is the non-negative remainder modulo 256. Dafny's `/` and `%` by 256 are exactly these.

The blocking `k_sem_take` is modelled in two places. `WorkerCycle` requires a pending signal. In a `Run` schedule, a worker turn is the worker reaching `k_sem_take`: with no pending signal it stays blocked. A give to a worker already blocked there is written as `Interrupt` immediately followed by a worker turn.

## Model

| member | source | states |
|---|---|---|
| Payload.LowByte | src/main.c:106-111 | `v & 0xFF` is the byte congruent to v modulo 256. |
| Payload.HighByte | src/main.c:106-111 | `(v >> 8) & 0xFF` is the high byte of v's 16-bit two's-complement form: `lo + 256*hi` equals v, or v + 0x10000 when v is negative. |
| Payload.EncodeSample | src/main.c:106-111 | The record written into `accel_value` is six bytes long (`sizeof(accel_value)`). |
| Payload.Int16RoundTrip | src/main.c:106-111 | For every `int16_t` v, the peer reading `lo + 256*hi` as signed 16-bit from `v & 0xFF` and `(v >> 8) & 0xFF` gets back v. |
| Payload.Int16BytesRoundTrip | src/main.c:106-111 | Every byte pair is the encoding of the value decoded from it, so the per-axis encoding is a bijection. |
| Payload.SampleRoundTrip | src/main.c:103-111 | Decoding the 6-byte record (x, then y, then z, low byte first) gives back exactly (x, y, z). |
| Payload.PayloadRoundTrip | src/main.c:103-111 | Every 6-byte record is the encoding of the sample decoded from it. |
| Payload.EncodeExample | src/main.c:106-111 | (100, -50, 32760) encodes as `64 00 CE FF F8 7F`. |
| Firmware.CycleBracketsBus | src/main.c:196-208 | After any history, the bus is powered at the sample read and also at the notify exactly when the resume succeeded or the bus was already on, because the suspend comes after the radio send. The pass ends with the bus on exactly when the suspend failed and the bus was on before it. |
| Firmware.SemGive | src/main.c:178 | `k_sem_give` on a count within the limit leaves exactly one signal pending, and never lowers the count. |
| Firmware.SemAfter | src/main.c:126 | The semaphore count after any schedule of gives and takes stays within the limit 1. |
| Firmware.WakesConsumeSignals | src/main.c:178-196 | Worker passes plus the pending signal never exceed the initial count plus the interrupts, so no pass runs without an interrupt before it. |
| Firmware.InterruptBurst | src/main.c:126-178 | One or more interrupts in a row leave exactly one pending signal and wake nobody. |
| Firmware.InterruptsCoalesce | src/main.c:178-196 | A burst of N >= 1 interrupts arriving before the worker reaches `k_sem_take`, followed by any number >= 1 of worker turns, runs exactly one pass and leaves no signal pending. |
| Firmware.SuspendsLeaveBusOff | src/main.c:199-208 | If every pass's suspend succeeds, a bus that starts suspended is suspended after any schedule. |
| Firmware.FailedSuspendKeepsBusOn | src/main.c:199-208 | A pass whose resume succeeds and whose suspend fails leaves the bus powered, since the code ignores the suspend's result. |
| Firmware.FailedReadsResend | src/main.c:203-205 | When every read fails, `acc_data` stays as it started, so every pass resends the old sample. |
| Firmware.NoPeerNoWrite | src/main.c:55-111 | With no peer at the start and no successful connection, the slot stays empty and no pass writes `accel_value`. |
| Firmware.HeldRefsBalance | src/main.c:55-72 | Over any schedule, the stored connection is one of the held references. The held count plus the releases equals the starting count plus the successful connections, so a reference overwritten by a second connection is never released. |
| Firmware.Board.constructor | src/main.c:35-404 | The steady state starts with zeroed `accel_value` and `acc_data`, no connection and semaphore 0. `rx_buffer` holds whatever bring-up's register reads left in it (a parameter). SPI is suspended when line 404's suspend succeeds, and stays on otherwise. |
| Firmware.Board.InterruptHandler | src/main.c:174-179 | `k_sem_give` on the 0..1 semaphore: the count becomes 1 whatever it was, so a give at 1 is lost. |
| Firmware.Board.Connected | src/main.c:55-63 | A nonzero `err` changes nothing. `err == 0` stores the new connection and takes one reference, without releasing a previously stored one. |
| Firmware.Board.Disconnected | src/main.c:65-72 | Afterwards the slot is always empty. The stored reference is released only when there was one, so a second call changes nothing. |
| Firmware.Board.SendAccelNotification | src/main.c:103-118 | With no connection, `accel_value` and the trace are unchanged. Otherwise `accel_value` becomes the encoded sample and exactly one notify of it is issued, whatever its result (no retry). |
| Firmware.Board.Transceive | src/main.c:239 | `spi_transceive_dt` as an abstract call. On success the front of `rx_buffer` receives the sensor's bytes; on failure the buffer keeps its old contents. One call is recorded. |
| Firmware.Board.ReadRegSpi | src/main.c:217-251 | Transmits exactly `[reg_address]` and requests `len + 1` bytes (`len + 1 <= 128`). Sets `data[i] = rx_buffer[i+1]` for i < len and leaves the rest of `data` alone. Returns 0 even when the transfer failed, in which case the stale buffer is copied. |
| Firmware.Board.WriteRegSpi | src/main.c:253-276 | With `len == 1`, transmits exactly `[reg_address, data[0]]` and returns the transport error when negative, otherwise 0. |
| Firmware.Board.SpiPower | src/main.c:199-208 | `pm_device_action_run` on `spi1` sets the requested power state when it returns 0 and leaves it unchanged otherwise. The call and its result are recorded. |
| Firmware.Board.WorkerCycle | src/main.c:182-210 | One loop pass consumes one signal. It then resumes SPI, reads, sends (notifying only when connected) and suspends SPI, in that order. The read's result is ignored, so a failed read resends the previous `acc_data`. Afterwards SPI is on exactly when the suspend failed and the bus was on before it, through the resume or from before. |
| Firmware.Board.Run | src/main.c:55-210 | Over any schedule of interrupts, callbacks and worker turns: the final semaphore count is `SemAfter`, the connection slot is `ConnAfter`, the held references are `HeldAfter`, the bus state is `PowerAfter`, `acc_data` is `SampleAfter`, `accel_value` is `ValueAfter`, and the number of passes is `Wakes`. |
| Firmware.ReconnectKeepsFirstReference | src/main.c:55-72 | Connecting a then b, then disconnecting twice, leaves the slot empty with a's reference still held. |
| Labels.StrLessIrreflexive | example.py:67 | No string sorts before itself under Python's string order. |
| Labels.StrLessTransitive | example.py:67 | Python's string order is transitive. |
| Labels.StrLessTotal | example.py:67 | Any two different strings are ordered one way or the other. |
| Labels.InsertSorted | example.py:67 | Inserting into a strictly sorted label list keeps it strictly sorted, and its elements become the old ones plus the new label. |
| Labels.SortedLabels | example.py:67 | `sorted(list(set(y_strings)))` is strictly increasing and holds exactly the labels occurring in `y_strings`. |
| Labels.SortedIsUnique | example.py:67 | Two strictly sorted lists with the same elements are equal, so `SortedLabels` is the one sorted arrangement of the label set. |
| Labels.SortedLabelsExample | example.py:67 | `["sitting", "Walking", "sit", "sitting"]` gives `["Walking", "sit", "sitting"]`. |
| Labels.LabelToInt | example.py:68 | `{label: idx for idx, label in enumerate(unique_labels)}` as a map comprehension. Its properties are stated by `LabelIndexBijection`. |
| Labels.IntToLabel | example.py:69 | The inverted dictionary `{idx: label ...}`. It is defined when the indices are distinct, which `LabelIndexBijection` proves for `label_to_int`. |
| Labels.EncodeLabels | example.py:71 | `[label_to_int[label] for label in y_strings]`, defined when every label has an index. `ClassTargets` states its result. |
| Labels.BuildClasses | example.py:67-73 | Lines 67-73 computed together: the unique labels, both dictionaries, `y` and `NUM_CLASSES`. `ClassTargets` states how they relate. |
| Labels.LabelIndexBijection | example.py:67-69 | `label_to_int` maps the i-th sorted label to i, one to one, onto 0..NUM_CLASSES-1. `int_to_label` has exactly those keys and is its inverse in both directions. |
| Labels.ClassTargets | example.py:67-73 | `y` has one entry per window and `y[j] == label_to_int[y_strings[j]]`. Each entry lies in [0, NUM_CLASSES), indexes `y_strings[j]` in the sorted list, and `int_to_label` maps it back to `y_strings[j]`. |
| Dataset.FirstIndexOfSpec | example.py:22-23 | Finds the first `_`: none exactly when there is no `_`, otherwise an index holding `_` with none before it. |
| Dataset.LastIndexOfSpec | example.py:20 | Finds the last `/` or `.`: none exactly when absent, otherwise an index holding it with none after it. |
| Dataset.FirstIndexAfter | example.py:22-23 | In `a + "_" + b` with no `_` in `a`, the first `_` is at `len(a)`. |
| Dataset.LastIndexBefore | example.py:20 | In `a + c + b` with no `c` in `b`, the last `c` is at `len(a)`. |
| Dataset.LabelAfterFirstUnderscore | example.py:20-25 | The stem `person_activity` (no `_` in person) yields `activity`, underscores included. A stem without `_` is its own label. |
| Dataset.StemOfCsvPath | example.py:14-20 | For a `glob` result `<dir>/<base>.csv`, `Path(...).stem` is `base`. |
| Dataset.Stem | example.py:20 | `Path(p).stem`: the file name after the last `/`, without its last suffix. `StemOfCsvPath` states it for `glob` results. |
| Dataset.LabelFromStem | example.py:22-25 | The text after the first `_`, or the whole stem without one. `LabelAfterFirstUnderscore` states it for every stem. |
| Dataset.LabelOf | example.py:20-25 | The label of the recording at a path: `LabelFromStem` of its stem. |
| Dataset.LabelOfCsvPath | example.py:14-25 | A `glob` result `<dir>/<person>_<activity>.csv`, with no `_` in person and no `/` in person or activity, is labelled `activity` (so `./Andres_sitting.csv` gives `sitting`). |
| Dataset.LabelKeepsLaterUnderscores | example.py:23 | The stem `a_b_c` gives `b_c`: only the first `_` splits. |
| Dataset.LoadCsvData | example.py:12-35 | One data entry and one label per file, in file order. The lists have equal length, entry i holds file i's rows, and label i is file i's label. |
| Dataset.SeriesWindows | example.py:48-49 | Every window has exactly `window_size` rows. |
| Dataset.SeriesWindowsAt | example.py:44-49 | A series of n rows gives no window when n < `window_size`, otherwise n - `window_size` + 1 windows. Window i is rows i..i+`window_size`-1. |
| Dataset.Reshape | example.py:51 | `window.T.reshape(3, 25, 1)`: channel c, time step t holds column c of row t. `ReshapeTransposes` states its shape and that it loses no row. |
| Dataset.ReshapeTransposes | example.py:51 | `window.T.reshape(3, 25, 1)` has shape (3, 25, 1) with `w[c][t][0] == row t, column c`. Reading the rows back gives the window, so no row is lost. |
| Dataset.Zip | example.py:43 | `zip` yields as many pairs as the shorter list. |
| Dataset.WindowsX | example.py:43-52 | The `X_windows` of a list of (series, label) pairs, file by file: every window of each series, transposed. `WindowsLength` and `WindowOfFile` state its contents. |
| Dataset.WindowsY | example.py:43-54 | The `y_windows`: each file's label once per window of that file. `WindowsLength` and `WindowOfFile` state its contents. |
| Dataset.WindowsLength | example.py:52-56 | `X_windows` and `y_windows` have the same length: the sum of the windows of all files. |
| Dataset.WindowOfFile | example.py:43-56 | File k's windows start at the number of windows of the files before it. Its window i is rows i..i+24 transposed and carries file k's label. |
| Dataset.CreateWindows | example.py:38-56 | With `window_size == 25`, the two lists are the per-file windows, in file and start order, each transposed, with the file's label once per window. Their lengths are equal. |

## Left out

- The Bluetooth stack is not modelled: the GATT service and CCC callback (src/main.c:37-51), `bt_ready` and advertising (src/main.c:84-101), `bt_enable`, and the MAC address read and print in the worker loop (src/main.c:186-195). These are calls into the stack and console output.
- `main`'s device bring-up (src/main.c:357-412) is reduced to its effects on the modelled state: what its register reads leave in `rx_buffer` and the SPI suspend at line 404, which `Board.constructor` takes as parameters. GPIO and interrupt configuration, readiness checks, `k_sleep`, `bma400_delay_us` and logging are platform calls. An interrupt firing during bring-up is not modelled.
- `init_read_lp`, `init_fifo_watermark`, `init_activity` and `bma400_init` (src/main.c:278-355, 396) are not modelled. They set fields and call into the BMA400 library, whose register traffic is not part of this model.
- Firmware.Board.WorkerCycle: the register reads inside `bma400_get_accel_data` are not expanded into `ReadRegSpi` calls, because that library is not part of this model. A failed read is modelled as leaving `acc_data` unchanged; partial writes by the library are not modelled.
- Firmware.Board.Transceive: a failed transfer is modelled as leaving `rx_buffer` untouched. A driver that wrote part of it before failing is not modelled.
- Real interrupt and thread concurrency: interrupts and Bluetooth callbacks interleave with the worker only between whole passes (`Board.Run`). A disconnect landing between the `current_conn` test and `bt_gatt_notify` therefore cannot be expressed.
- Firmware.Board.Run: its contract states every field of the board afterwards but not the full call trace. Each pass's trace is stated by `WorkerCycle`.
- `src/ei_glue_v2.cpp`, a wrapper around the Edge Impulse SDK with a floating-point argmax, is not part of this model.
- In `example.py`: CSV parsing, `glob`'s file order (the files are taken in the order given), the `float32` conversion, `np.array` packing, the model definition, training, TFLite conversion and file output (example.py:82-161) are left out. They are library calls and floating point.
- Dataset.CreateWindows: requires `window_size == 25`. For any other size `reshape(3, 25, 1)` raises as soon as one window is built, and the script only passes 25.
- Dataset.Stem: POSIX paths only (`/` separators), following the classic `pathlib` suffix rule.

## Behaviour of the code worth knowing

- z = 32760 (0x7FF8) is sent as `F8 7F`, low byte first (`Payload.EncodeExample`).
- SPI is suspended only after `send_accel_notification` returns, so the bus stays powered during the radio send (`Firmware.CycleBracketsBus`).
- The result of `bma400_get_accel_data` is ignored: a failed read still sends whatever `acc_data` holds (`Firmware.Board.WorkerCycle`, `Firmware.FailedReadsResend`).
- `read_reg_spi` only logs a transport error, copies the stale buffer and returns 0 (`Firmware.Board.ReadRegSpi`).
- The results of both `pm_device_action_run` calls are ignored, so a failed suspend leaves the bus powered (`Firmware.FailedSuspendKeepsBusOn`).
