# CO2Meter frame decoder and latest-value store

A Dafny model of the `CO2Meter` class of `co2monitor-sender.py`. The class reads a USB
CO2/temperature/humidity meter through a hidraw device. Each read returns an 8-byte report.
Some firmware obfuscates the report: it is shuffled, XORed with a key, rotated by three
bits and offset by a constant. The class undoes this, checks the terminator and the
checksum, and stores the value in a latest-value table keyed by sensor kind. It tells an
optional observer callback about CO2, temperature and nonzero humidity reports. A
background loop keeps polling until the first failure. After that, every accessor raises.

The model has three modules:

- `Frame` (`frame.dfy`) covers `_decrypt` and the validation and field extraction of
  `_read_data`. Bytes are `bv8`, so every `& 0xff` in `_decrypt` is the truncation `bv8`
  performs. The pure functions `Shuffled`, `Masked`, `Unrotated` and `Unkeyed` give the four
  phases. The methods `Unshuffle`, `Unmask`, `Unrotate` and `Unkey` compute those phases as
  `_decrypt` does, filling a buffer in a loop. `Decrypt` chains them. The functions
  `Keyed`, `Rotated` and `Obfuscated` give the forward obfuscation, and lemmas prove that
  the reversal and the obfuscation are inverse bijections on 8-byte frames. `Decode`
  classifies what one read returned:
  - `Accepted(kind, raw)`;
  - `Rejected`, when the checksum or terminator test fails;
  - `Fault`, the index error that a short read raises.
- `Sensor` (`sensor.dfy`) is the pure specification of the state. It holds the sensor
  kinds, `_convert_value` and the callback filter. `Step` is the effect of one
  `_read_data` call on a `Snapshot`: the table, the `_running` flag and the observer calls
  made so far. `Run` is the `_co2_worker` loop over a sequence of polls. Lemmas cover the
  liveness latch, the stop at the first failure, last-write-wins and the table invariant.
- `Device` (`device.dfy`) is the imperative side. The `Meter` class has the `running`
  flag and the observer log as fields. The table is a separate `ValueTable` object that
  the meter updates in place. The methods are `ReadFrame` (one worker iteration) and
  `Work` (the worker loop). Each is proved to follow `Step` and `Run`. The accessors are
  functions that read the heap.

Inputs from outside are parameters:

- what the device read returned: its bytes, or an I/O error (`ReadOutcome`);
- whether the observer callback raises when it is called (`Poll.observerRaises`);
- whether a callback was given at all (`Meter.observed`).

The model follows the code in these places, where a reader might expect otherwise:

- A short read of 5 to 7 bytes whose byte 4 is `0x0D` is not a read failure. Indexing
  `data[4]` succeeds, no reversal runs, and the report is checked and stored like a full
  one. Only fewer than 5 bytes, or 5 to 7 bytes that need the reversal, raise and stop
  the loop.
- The accessor hides humidity when the stored *converted* value compares equal to 0.
  `round(raw / 100.0, 1)` is `0.0` exactly for raw values 0 to 4. For raw 5, the division
  gives the double just above 0.05, which rounds to 0.1. So `get_humidity` hides raw values
  1 to 4 as well, while the callback filter tests the raw value and reports them.
  `Device.LowHumidityReportedButHidden` shows such a report.
- An exception raised by the observer callback is caught by the same bare `except`, so
  it also stops the loop. The table entry is already written by then.
- Byte 4 alone decides whether a report is obfuscated. The round trip therefore holds
  only when the obfuscated byte 4 is not `0x0D`. `Frame.ObfuscatedTerminatorMisroutes`
  gives an intact frame whose obfuscation has `0x0D` at byte 4. That report is checked as
  plaintext and rejected. This is the device's own heuristic, kept as it is.

## Model

| member | source | states |
|---|---|---|
| `Frame.ShuffleIsPermutation` | co2monitor-openwrt-sender/co2monitor-sender.py:99 | the shuffle table is a permutation of 0..7 (injective, in range) and is its own inverse |
| `Frame.Unshuffle` | co2monitor-openwrt-sender/co2monitor-sender.py:101-103 | phase 1 puts input byte i at position `Shuffle[i]`, for every i; the buffer equals `Shuffled(data)` |
| `Frame.Unmask` | co2monitor-openwrt-sender/co2monitor-sender.py:105-107 | phase 2 is the XOR of each byte with the key byte at the same position |
| `Frame.Unrotate` | co2monitor-openwrt-sender/co2monitor-sender.py:109-112 | phase 3 is each byte's top five bits shifted down under the low three bits of its cyclic left neighbour |
| `Frame.Unkey` | co2monitor-openwrt-sender/co2monitor-sender.py:114-120 | phase 4 subtracts the nibble-swapped cipher state modulo 256 |
| `Frame.Decrypt` | co2monitor-openwrt-sender/co2monitor-sender.py:94-122 | `_decrypt` returns exactly 8 bytes, equal to the four phases applied in order |
| `Frame.ShuffledTwice` | co2monitor-openwrt-sender/co2monitor-sender.py:99-103 | shuffling twice gives the frame back |
| `Frame.MaskedTwice` | co2monitor-openwrt-sender/co2monitor-sender.py:105-107 | XOR with the key twice gives the frame back |
| `Frame.MergeUnmerge` | co2monitor-openwrt-sender/co2monitor-sender.py:111-112 | per byte, the 3-bit rotate-merge and the opposite rotation undo each other in both orders |
| `Frame.UnrotatedRotated` | co2monitor-openwrt-sender/co2monitor-sender.py:109-112 | phase 3 undoes a left rotation of the 64-bit frame by three bits |
| `Frame.RotatedUnrotated` | co2monitor-openwrt-sender/co2monitor-sender.py:109-112 | the left rotation undoes phase 3 |
| `Frame.AddSub` | co2monitor-openwrt-sender/co2monitor-sender.py:120 | per byte, subtracting and adding the same value modulo 256 undo each other |
| `Frame.UnkeyedKeyed` | co2monitor-openwrt-sender/co2monitor-sender.py:114-120 | phase 4 and adding the nibble-swapped state undo each other in both orders |
| `Frame.DecryptedObfuscated` | co2monitor-openwrt-sender/co2monitor-sender.py:94-122 | the reversal recovers every 8-byte frame from its obfuscation |
| `Frame.ObfuscatedDecrypted` | co2monitor-openwrt-sender/co2monitor-sender.py:94-122 | the obfuscation recovers every 8-byte report from its reversal, so the reversal is a bijection |
| `Frame.SwapKeepsBytes` | co2monitor-openwrt-sender/co2monitor-sender.py:101-103 | exchanging two positions keeps the multiset of bytes |
| `Frame.ShuffledIsSwaps` | co2monitor-openwrt-sender/co2monitor-sender.py:99 | the shuffle is the exchanges (0 2), (1 4), (3 7), (5 6) done one after another |
| `Frame.ShuffledPermutes` | co2monitor-openwrt-sender/co2monitor-sender.py:101-103 | phase 1 keeps the multiset of the input bytes: each byte lands at exactly one position |
| `Frame.RawValue` | co2monitor-openwrt-sender/co2monitor-sender.py:86 | `b1 << 8` OR `b2` is `b1 * 256 + b2` and lies in 0..65535 |
| `Frame.Check` | co2monitor-openwrt-sender/co2monitor-sender.py:81-86 | a candidate is accepted iff byte 4 is `0x0D` and `(b0+b1+b2) mod 256 == b3`; if accepted, the kind is `b0` and the raw value is `b1*256+b2` |
| `Frame.Decode` | co2monitor-openwrt-sender/co2monitor-sender.py:71-86 | a fault iff fewer than 5 bytes, or fewer than 8 with byte 4 not `0x0D`; with `0x0D` at byte 4 the input bytes themselves are checked and give kind `b0` and raw `b1*256+b2`; otherwise the same test and extraction apply to the eight bytes of the reversal; kind < 256, raw < 65536 |
| `Frame.DecodeObfuscated` | co2monitor-openwrt-sender/co2monitor-sender.py:77-86 | an intact frame, obfuscated, decodes to its own kind and raw value whenever the obfuscated byte 4 is not `0x0D` |
| `Frame.ObfuscatedTerminatorMisroutes` | co2monitor-openwrt-sender/co2monitor-sender.py:77-79 | the condition on byte 4 above is needed: an intact frame whose obfuscation has `0x0D` at byte 4 is rejected |
| `Frame.DecodeKnownVector` | co2monitor-openwrt-sender/co2monitor-sender.py:77-86 | `50 01 90 E1 0D 00 00 00` takes the plaintext path and is accepted as CO2, raw 400 |
| `Sensor.Convert` | co2monitor-openwrt-sender/co2monitor-sender.py:124-132 | CO2 and unknown kinds keep the raw value unchanged; only kind 0x42 becomes a temperature and only 0x41 a humidity |
| `Sensor.RoundsToZero` | co2monitor-openwrt-sender/co2monitor-sender.py:172-177 | a stored humidity is hidden exactly when raw / 100 is below 0.05 (raw ≤ 4). This rests on a fact about doubles that is assumed, not proved: `round(raw / 100.0, 1)` (line 130) is `0.0` for raw 0..4 and not for raw 5, whose double quotient lies just above 0.05 |
| `Sensor.Notifies` | co2monitor-openwrt-sender/co2monitor-sender.py:88-90 | the observer hears of every CO2 (0x50) and temperature (0x42) report, of a humidity (0x41) report iff its raw value is nonzero, and of no other kind |
| `Sensor.DecodeRead` | co2monitor-openwrt-sender/co2monitor-sender.py:70-92 | an error of the read itself is a fault; otherwise the outcome is the decoding of the bytes |
| `Sensor.Step` | co2monitor-openwrt-sender/co2monitor-sender.py:64-92 | a fault clears only `running`; a rejected frame changes nothing; an accepted frame overwrites exactly the entry of its kind; the observer is called iff one is set and the filter allows; an observer that raises clears `running`; `running` never becomes true; the table invariant is kept |
| `Sensor.Run` | co2monitor-openwrt-sender/co2monitor-sender.py:28-35 | the worker loop over a sequence of polls: with no polls nothing changes, and a poll that stops the meter is the last one whose effect is taken; the properties of the loop are the `Run*` lemmas below |
| `Sensor.RunLatch` | co2monitor-openwrt-sender/co2monitor-sender.py:28-35 | the worker loop never restarts a stopped meter, and a meter still running afterwards was running before |
| `Sensor.RunStopsAtFailure` | co2monitor-openwrt-sender/co2monitor-sender.py:32-35 | once a poll stops the meter, no later poll is consumed |
| `Sensor.RunKeepsTableWellFormed` | co2monitor-openwrt-sender/co2monitor-sender.py:81-87 | the table only ever holds the conversion, by its own kind, of a 16-bit raw value from an accepted frame |
| `Sensor.RunKeepsKinds` | co2monitor-openwrt-sender/co2monitor-sender.py:87-90 | no stored kind is ever removed, and observer calls are only appended |
| `Sensor.LastWriteWins` | co2monitor-openwrt-sender/co2monitor-sender.py:87 | after two consecutive accepted frames of one kind, the entry holds the second one's value, whatever the state before |
| `Sensor.RejectedReportsChangeNothing` | co2monitor-openwrt-sender/co2monitor-sender.py:81-83 | any number of rejected frames leave table, flag and observer calls as they were, whether or not the meter still runs |
| `Device.ValueTable.constructor` | co2monitor-openwrt-sender/co2monitor-sender.py:42 | the table starts empty |
| `Device.Meter.constructor` | co2monitor-openwrt-sender/co2monitor-sender.py:47-62 | a new meter runs, has made no observer calls, and owns a fresh empty table (the corrected form of the shared table) |
| `Device.Meter.AsWritten` | co2monitor-openwrt-sender/co2monitor-sender.py:39-49 | as written, a new meter uses the class-level table and leaves its entries as they were |
| `Device.Receive` | co2monitor-openwrt-sender/co2monitor-sender.py:70-86 | the decoding half of `_read_data`, done step by step, yields exactly `DecodeRead` of the read |
| `Device.Meter.ReadFrame` | co2monitor-openwrt-sender/co2monitor-sender.py:64-92 | one worker iteration changes the table, flag and observer log exactly as `Step` says, and keeps the table invariant |
| `Device.Meter.Work` | co2monitor-openwrt-sender/co2monitor-sender.py:24-36 | the worker loop leaves the state `Run` gives; it stops early only when the meter stopped, and the state equals the run over the polls it consumed; the table invariant the accessors need is kept |
| `Sensor.RunPrefix` | co2monitor-openwrt-sender/co2monitor-sender.py:28-35 | the loop's state after n+1 polls is one more step from its state after n |
| `Sensor.RunSnoc` | co2monitor-openwrt-sender/co2monitor-sender.py:28-35 | one more poll on a run that still goes is one more step |
| `Device.Meter.GetCo2` | co2monitor-openwrt-sender/co2monitor-sender.py:139-150 | raises iff the meter stopped; otherwise `{'co2': v}` iff kind 0x50 is stored, with v the stored value, and `{}` otherwise |
| `Device.Meter.GetTemperature` | co2monitor-openwrt-sender/co2monitor-sender.py:152-163 | raises iff the meter stopped; otherwise `{'temperature': v}` iff kind 0x42 is stored |
| `Device.Meter.GetHumidity` | co2monitor-openwrt-sender/co2monitor-sender.py:165-177 | raises iff the meter stopped; otherwise `{'humidity': v}` iff kind 0x41 is stored and its converted value is not 0 (raw ≥ 5) |
| `Device.Meter.GetData` | co2monitor-openwrt-sender/co2monitor-sender.py:179-189 | raises iff the meter stopped; otherwise the union of the three accessors' dictionaries, with keys among co2, temperature, humidity |
| `Device.KnownVectorServesCo2` | co2monitor-openwrt-sender/co2monitor-sender.py:77-87 | a new meter fed `50 01 90 E1 0D 00 00 00` serves `{'co2': 400}` |
| `Device.LowHumidityReportedButHidden` | co2monitor-openwrt-sender/co2monitor-sender.py:88-90 | a humidity frame with raw 3 reaches the observer, yet `get_humidity` returns `{}` |
| `Device.ZeroCo2ReportedAndServed` | co2monitor-openwrt-sender/co2monitor-sender.py:87-90 | a CO2 frame with raw 0 reaches the observer and `get_co2` serves it: only humidity is filtered on its value |
| `Device.DeadMeterServesNothing` | co2monitor-openwrt-sender/co2monitor-sender.py:91-92 | after a failed read `get_data` raises, although the table still holds the earlier CO2 value |
| `Device.SharedTableServesStaleReading` | co2monitor-openwrt-sender/co2monitor-sender.py:42 | as written, a second meter serves a dead meter's reading before reading anything itself |
| `Device.OwnTableServesNoStaleReading` | co2monitor-openwrt-sender/co2monitor-sender.py:47-62 | with a table per meter, the second meter serves `{}` in the same scenario |

## Findings

| source | as written | input that shows it | evidently intended | confidence | as-written member | corrected member |
|---|---|---|---|---|---|---|
| co2monitor-openwrt-sender/co2monitor-sender.py:42 | `_values = {}` is a class attribute. `_read_data` writes into it in place (line 87), so every instance shares one table, and a new instance starts with the readings of earlier ones | a meter accepts `50 01 90 E1 0D 00 00 00` and its next read fails; a new meter on the same class then answers `get_co2()` with `{'co2': 400}` before its worker has read anything | each instance owns its own table, empty at construction, so a dead device's data is never served | not executed; high that the sharing happens, medium that it is unintended (one instance per process hides it) | `Device.SharedTableServesStaleReading` (with `Device.Meter.AsWritten`) | `Device.OwnTableServesNoStaleReading` (with `Device.Meter.constructor`, which the rest of the model uses) |

## Left out

- Opening the device and the `HIDIOCSFEATURE` ioctl (lines 50-57) are operating-system I/O and are not modelled. The 9-byte report they send is only the constant `Frame.FeatureReport`, a zero byte followed by the key.
- Threads and `weakref` (lines 24-36 and 59-62) are not modelled. The worker is a sequential loop over a finite sequence of polls. The sequence ending stands for the weak reference returning `None`. Locking and torn reads are outside the model.
- Sensor.Convert: keeps temperature and humidity as the raw value they come from. It does not compute the floats `round(raw / 16.0 - 273.1, 1)` and `round(raw / 100.0, 1)`. The one float fact the code relies on, that the humidity compares equal to 0 exactly for raw 0..4, is written into `Sensor.RoundsToZero`.
- Sensor.RoundsToZero: states the hiding test on exact real numbers (raw / 100 below 0.05). That this matches Python's rounding of the double `raw / 100.0` is assumed, not proved, because the model has no floating-point arithmetic.
- Sensor.Step: the bare `except` also catches interpreter-level exceptions (a keyboard interrupt, for one). Only three failures are modelled: read errors, the index errors of short reads, and observer errors.
- `_hd` and the `print` of a checksum error (lines 82, 134-137) are diagnostics and are not modelled.
- The Python 2 branches (lines 55-57 and 74-75) are not modelled.
- `HomeAssistantReporter`, `loop` and `main` (lines 192-262) are HTTP and command-line glue and are not modelled.
- `blink.py` (LEDs, D-Bus) and `read-co2-sensor.py` (CSV log tailing, dates, floats) are not part of this model.
