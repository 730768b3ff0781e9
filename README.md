# Sensor-node telemetry core, modelled in Dafny

This project models the telemetry path of an ESP32 sensor-node firmware.
The node reads its I2C sensors once a minute and turns each cycle's
readings into a `Sample`. It queues the sample in a bounded queue and
publishes it to an MQTT broker as a flat JSON object. Beside that path it
keeps its Wi-Fi and MQTT settings in an `ekv` key-value database on flash,
and it keeps a wall clock that SNTP sets. Both firmware generations are
covered:

- the current crate, `crates/core/src/`:
  - `mqtt.rs`: the session loop, the connection wait, poll handling, the
    publish burst and the payload builder;
  - `sensors.rs`: the acquisition task;
  - `config.rs` and `kv_storage.rs`: settings on typed KV access;
  - `air_quality.rs`: the air-quality scorer;
  - `net_time.rs`: the time base and the SNTP exchange;
- the older snapshot, `src/`:
  - `wifi.rs`: the Wi-Fi reconnect loop;
  - `mqtt.rs`: the one-sample MQTT session;
  - `sensors.rs`: the first acquisition loop;
  - `storage.rs`: the sample store with its key counter.

Every wait on Wi-Fi, a socket, a timer or a signal is an input, and the
tasks run as one sequential program:

- Fallible calls of a driver, the network, the flash or the MQTT client
  are inputs. They are booleans, `Option`s, or a `fault` index that names
  the failing step of a routine.
- Signals are boolean flags (`Sync.Signal`).
- Queues and channels are one bounded FIFO class, `Sync.Fifo<T>`. Its
  capacity is a parameter.
- Sleeps are recorded in a `sleeps` field (or a log of actions), in the
  order the task takes them.
- `u32` arithmetic that can leave its range wraps, as in a release build.
  It is written out with `Common.Wrap32`.
- `f32` readings are reals, and their `Display` is a function parameter
  `show`.

Modules, one per file:

| module | file | role |
|---|---|---|
| `Common` | `common.dfy` | `Option`, `Result`, `u32`, `Wrap32`, fault injection |
| `Utf8` | `utf8.dfy` | `str::as_bytes` and `core::str::from_utf8` |
| `Fmt` | `fmt.dfy` | `write!` into a `heapless::String<N>`, decimal `Display` |
| `Sync` | `sync.dfy` | bounded FIFO and signal |
| `Ekv` | `ekv.dfy` | the key-value engine: records, ascending write transactions, commit |
| `KvStorage` | `kv_storage.dfy` | flash addressing, `Key`, bool and string codecs, `init` |
| `Config` | `config.dfy` | settings types, load, save, `set_reboot` |
| `AirQuality` | `air_quality.dfy` | `calculate`, `aiq_from_score` |
| `NetTime` | `net_time.dfy` | `TimeState`, the SNTP request and response, `sync_task` |
| `Sensors` | `sensors.dfy` | probing, sample assembly, the acquisition loop |
| `Mqtt` | `mqtt.dfy` | backoff, the command topic, poll results, `wait_for_connect`, `build_payload` |
| `MqttLoop` | `mqtt_loop.dfy` | `publish_sample`, `handle_poll_result`, `mqtt_loop`, `publisher_loop`, `command_execution_loop` |
| `LegacyWifi` | `legacy_wifi.dfy` | `src/wifi.rs` |
| `LegacyMqtt` | `legacy_mqtt.dfy` | `src/mqtt.rs` |
| `LegacySensors` | `legacy_sensors.dfy` | `src/sensors.rs` |
| `LegacyStorage` | `legacy_storage.dfy` | `src/storage.rs` |

### Where the code departs from what it evidently intends

- **`Sample` has no `temp_bme680`, `press_bme680` or `hum_bme680` field.**
  - `build_payload` reads those three names from the sample, but
    `Sample` calls them `temperature`, `pressure` and `humidity`.
  - The model writes the three members under the builder's names and
    takes the values from the sample's `temperature`, `pressure` and
    `humidity`.
  - `gas_ohm` and `aiq_score` are never written, and
    `Mqtt.PayloadOmitsGasAndScore` proves it.
- **`read_string` handles a `StringCapacityError` that cannot happen.**
  - The engine refuses a value longer than the `N`-byte buffer with
    `BufferTooSmall` before any decoding.
  - A string decoded from at most `N` bytes re-encodes to exactly those
    bytes, so it always fits `String<N>`
    (`KvStorage.StringCapacityUnreachable`).
- **`save_settings` writes its six keys out of field order.** The writes
  are not in the order of `Settings`' fields. They are in ascending byte order of the keys, which ekv's write
  transactions demand (`Config.SaveOrderAscending`). The engine model
  refuses out-of-order keys with `NotSorted`.
- **`src/storage.rs` `store` fails on a fresh database.** The `_next_id_`
  counter is never created, so `next_key`'s read fails with `KeyNotFound`
  and `store` fails before it writes
  (`LegacyStorage.FreshDatabaseRefusesStore`).
- **`src/storage.rs` `get` decodes the whole 256-byte buffer as
  `Option<Sample>`.** Its signature returns `Option<Value>`, and `store`
  serialises a bare `Value`. The model keeps the decoder's "read as
  `Option<Sample>`" step as the `decode` parameter, applied to the stored
  bytes padded with zeros.
- **`src/mqtt.rs` publishes a long payload cut short.**
  - `src/mqtt.rs` formats the six fields in one `write!` into a
    `String<256>` and ignores its error.
  - A line longer than 256 characters is therefore published cut short, as
    whatever pieces fitted. `LegacyMqtt.PayloadIsJsonLine` states the cut.

## Model

| member | source | states |
|---|---|---|
| Common.Wrap32 | crates/core/src/net_time.rs:42 | the wrapped value agrees with the mathematical one inside the `u32` range and is congruent to it modulo 2^32 |
| Common.Wrap32OfSum | crates/core/src/net_time.rs:42 | wrapping an intermediate sum does not change the final wrapped result |
| Utf8.EncodeChar | crates/core/src/kv_storage.rs:269 | one character takes 1 to 4 bytes |
| Utf8.Encode | crates/core/src/kv_storage.rs:269 | a string's bytes are at least as many as its characters |
| Utf8.DecodeChar | crates/core/src/kv_storage.rs:251 | a decoded character consumes 1 to 4 bytes of the input |
| Utf8.EncodeCharDecodes | crates/core/src/kv_storage.rs:251 | the bytes of a character followed by anything decode to that character and its length |
| Utf8.DecodeCharEncodes | crates/core/src/kv_storage.rs:251 | a decoded character re-encodes to exactly the bytes it was read from |
| Utf8.Decode | crates/core/src/kv_storage.rs:251 | `from_utf8`: it inverts the encoding of every string, and every byte string it accepts is the encoding of its result (`DecodeEncode`, `EncodeDecode`) |
| Utf8.DecodeEncode | crates/core/src/kv_storage.rs:244-272 | `from_utf8(s.as_bytes()) == Ok(s)` for every string |
| Utf8.EncodeDecode | crates/core/src/kv_storage.rs:244-256 | every well-formed byte string is the encoding of what it decodes to |
| Utf8.DecodedLength | crates/core/src/kv_storage.rs:251-252 | a decoded string has exactly as many bytes as were read |
| Utf8.EncodeAscii | crates/core/src/config.rs:6-11 | ASCII key text is one byte per character, each byte the character's code |
| Fmt.Write | crates/core/src/mqtt.rs:337-371 | formatting pieces into a bounded buffer only appends, never passes the capacity, keeps a prefix of the text and the whole text when it fits (`WriteAppends`, `WriteIsPrefix`) |
| Fmt.WriteAppends | crates/core/src/mqtt.rs:337-371 | a `write!(..).ok()` only appends, never passes the capacity, and appends the whole text exactly when it fits |
| Fmt.WriteIsPrefix | crates/core/src/mqtt.rs:337-371 | what a write leaves in the buffer is the old content plus a prefix of the formatted text |
| Fmt.Decimal | crates/core/src/mqtt.rs:340 | the decimal `Display` of a number is non-empty |
| Fmt.DecimalRoundTrip | crates/core/src/mqtt.rs:340 | the decimal text is only digits and parses back to the number |
| Sync.Offer | crates/core/src/sensors.rs:162-165 | an offer appends when the queue has room and drops the item otherwise |
| Sync.OfferAllKeepsEntries | crates/core/src/sensors.rs:162-166 | a run of offers keeps the queued entries in front and in order, adds a prefix of the offers, and never passes the capacity |
| Sync.OfferAllSnoc | crates/core/src/sensors.rs:162-166 | offering a batch and then one more item is offering the longer batch |
| Sync.OfferAllFull | crates/core/src/sensors.rs:162-165 | a full queue refuses every offer |
| Sync.FillEmpty | crates/core/src/sensors.rs:17-18 | an empty queue of capacity C keeps the first C offers and drops every later one |
| Sync.Fifo.constructor | crates/core/src/sensors.rs:17-18 | a new queue is empty, with the given capacity |
| Sync.Fifo.IsFull | crates/core/src/mqtt.rs:90-95 | full exactly when an enqueue would be refused |
| Sync.Fifo.Enqueue | crates/core/src/sensors.rs:164 | accepted exactly when there was room; the items become the offer's result |
| Sync.Fifo.Dequeue | crates/core/src/mqtt.rs:89 | an empty queue yields `None` and stays empty; otherwise the front item is removed and returned |
| Sync.Signal.constructor | crates/core/src/mqtt.rs:31-32 | a new signal is down |
| Sync.Signal.Raise | crates/core/src/sensors.rs:166 | after `signal(())` the signal is raised |
| Sync.Signal.TryWait | crates/core/src/mqtt.rs:87 | a wait completes exactly when the signal was raised, and takes it down |
| Ekv.BelowAt | crates/core/src/config.rs:126-136 | keys that agree up to a position and differ there are ordered by that byte |
| Ekv.BelowIrreflexive | crates/core/src/config.rs:126-136 | no key sorts before itself |
| Ekv.BelowTransitive | crates/core/src/config.rs:126-136 | the key order is transitive |
| Ekv.Lookup | crates/core/src/kv_storage.rs:232-235 | a read delivers the stored value exactly when the flash is healthy, the key is there and the value fits; otherwise `KeyNotFound`, `BufferTooSmall` or a flash error, each exactly in its case |
| Ekv.Stage | crates/core/src/kv_storage.rs:258-271 | staging succeeds exactly for an in-order key on a healthy flash; an out-of-order key is `NotSorted`; a refused operation stages nothing |
| Ekv.Apply | crates/core/src/config.rs:126-138 | the commit: a write sets exactly its key, a deletion removes exactly its key, and every written key is present afterwards (`ApplyPut`, `ApplyRemove`, `ApplyPuts`) |
| Ekv.ApplyPut | crates/core/src/config.rs:126-138 | committing one more write updates exactly that key |
| Ekv.ApplyRemove | src/storage.rs:140-146 | committing one more deletion removes exactly that key |
| Ekv.AcceptsKeepsAscending | crates/core/src/config.rs:126-136 | appending an accepted key keeps the staged keys ascending |
| Ekv.ApplyPuts | crates/core/src/config.rs:126-138 | after committing writes, every written key is present and every other key keeps its old value |
| Ekv.ApplyPutValue | crates/core/src/config.rs:126-138 | under ascending keys each written key holds the value written to it |
| Ekv.Database.constructor | crates/core/src/kv_storage.rs:218 | the engine starts unmounted over what the flash holds |
| Ekv.Database.Mount | crates/core/src/kv_storage.rs:220 | `mount` succeeds exactly when the flash holds a valid image and reading it hits no flash error, and changes no record |
| Ekv.Database.Format | crates/core/src/kv_storage.rs:221 | a successful `format` leaves an empty, mounted database; a failed one leaves nothing usable |
| Ekv.Database.Read | crates/core/src/kv_storage.rs:232 | a successful read fills the front of the buffer with the value and returns its length; the rest of the buffer, and all of it on failure, is untouched |
| Ekv.WriteTx.constructor | crates/core/src/config.rs:124 | a new write transaction has nothing staged |
| Ekv.WriteTx.Write | crates/core/src/kv_storage.rs:260 | the outcome and the staged operations after a write are those of `Stage` |
| Ekv.WriteTx.Delete | src/storage.rs:142 | the outcome and the staged operations after a deletion are those of `Stage` |
| Ekv.WriteTx.Commit | crates/core/src/config.rs:138 | a healthy commit applies every staged operation at once; a failed one changes nothing |
| KvStorage.EraseCoversPage | crates/core/src/kv_storage.rs:26-43 | inside a region that fits in 32 bits, page `p` starts at `flash_start + p * PAGE_SIZE` and its erase covers exactly that page |
| KvStorage.PageAddr | crates/core/src/kv_storage.rs:26-28 | page `i` starts `i * PAGE_SIZE` bytes after `flash_start`, modulo 2^32; distinct pages' ranges never overlap (`PagesDisjoint`) |
| KvStorage.EraseCall | crates/core/src/kv_storage.rs:38-43 | `erase` clears exactly `[page_addr, page_addr + PAGE_SIZE)`, and ranges of distinct pages are disjoint and in page order (`PagesDisjoint`) |
| KvStorage.ReadCall | crates/core/src/kv_storage.rs:45-53 | `read` reads at `page_addr + offset`; a read that fits the page stays inside its erase range (`AccessWithinPage`) |
| KvStorage.WriteCall | crates/core/src/kv_storage.rs:55-63 | `write` writes at `page_addr + offset`; a write that fits the page stays inside its erase range (`AccessWithinPage`) |
| KvStorage.AccessWithinPage | crates/core/src/kv_storage.rs:45-63 | a read or write at `page_addr + offset` that fits the page stays inside that page's erase range |
| KvStorage.PagesDisjoint | crates/core/src/kv_storage.rs:26-43 | distinct pages have disjoint erase ranges, in page order |
| KvStorage.ToLeBytes | crates/core/src/kv_storage.rs:74-78 | `to_le_bytes` gives four bytes |
| KvStorage.KeyInto | crates/core/src/kv_storage.rs:74-78 | `Key::into` gives four bytes |
| KvStorage.FromLeBytes | crates/core/src/kv_storage.rs:68-72 | `u32::from_le_bytes`, undone by `to_le_bytes` in both directions (`KeyRoundTrip`, `BytesRoundTrip`) |
| KvStorage.KeyFrom | crates/core/src/kv_storage.rs:68-72 | `Key::from` maps four bytes one-to-one onto keys, and `into` gives the bytes back (`KeyRoundTrip`, `BytesRoundTrip`) |
| KvStorage.KeyRoundTrip | crates/core/src/kv_storage.rs:66-78 | `Key::from(k.into()) == k` |
| KvStorage.BytesRoundTrip | crates/core/src/kv_storage.rs:66-78 | `Key::from(b).into() == b` for every four bytes |
| KvStorage.ReadFromDb | crates/core/src/kv_storage.rs:227-237 | a found value is delivered into the buffer and its length returned; a missing key is `Ok(None)`; every other engine error is passed on as `ReadError` |
| KvStorage.EncodeBool | crates/core/src/kv_storage.rs:258-262 | a bool is stored as one byte, non-zero exactly for true |
| KvStorage.DecodeBool | crates/core/src/kv_storage.rs:239-242 | a found value reads as `buf[0] != 0` (`ReadBool`) |
| KvStorage.ReadBool | crates/core/src/kv_storage.rs:239-242 | `read_bool` yields what the stored records determine: `None` for a missing key, `buf[0] != 0` for a found one |
| KvStorage.ReadString | crates/core/src/kv_storage.rs:244-256 | `read_string` yields what the stored records determine: `None` for a missing key, the decoded string, or the UTF-8 error |
| KvStorage.WriteBool | crates/core/src/kv_storage.rs:258-262 | an out-of-order key is `NotSorted` and stages nothing; otherwise the one-byte encoding is staged exactly when the flash is healthy |
| KvStorage.WriteString | crates/core/src/kv_storage.rs:264-272 | the string's exact bytes are staged under the same rules as `write_bool` |
| KvStorage.BoolRoundTrip | crates/core/src/kv_storage.rs:239-262 | a stored bool reads back as itself |
| KvStorage.StringRoundTrip | crates/core/src/kv_storage.rs:244-272 | a stored string that fits the reader's `N` reads back as itself |
| KvStorage.StringReadBack | crates/core/src/kv_storage.rs:244-256 | records holding a string's bytes that fit `N` read back as that string |
| KvStorage.StringTooLong | crates/core/src/kv_storage.rs:244-256 | a stored string longer than `N` is refused by the engine as `BufferTooSmall` |
| KvStorage.StringCapacityUnreachable | crates/core/src/kv_storage.rs:252 | whatever the records hold, `read_string` never ends in `StringCapacityError` |
| KvStorage.IllFormedString | crates/core/src/kv_storage.rs:251 | ill-formed UTF-8 that fits the buffer reads as `StrFromUtf8Error` |
| KvStorage.Init | crates/core/src/kv_storage.rs:207-225 | a database that mounts keeps its records and is not formatted; any failed mount, a flash error on a valid image included, is answered by a format that empties the records, and a format failure is returned as `FormatError` |
| Config.Ascii | crates/core/src/config.rs:6-11 | the key bytes are one byte per character, each the character's code |
| Config.AsciiIsUtf8 | crates/core/src/config.rs:6-11 | those bytes are exactly `name.as_bytes()` |
| Config.IsComplete | crates/core/src/config.rs:27-33 | all five string fields are present, whatever the flag; it decides `needs_reconfiguration` and whether `transmute` fills the settings in (`NeedsReconfiguration`, `Transmute`) |
| Config.NeedsReconfiguration | crates/core/src/config.rs:23-33 | true exactly when a string field is missing or the flag is `Some(true)`; an absent flag counts as false |
| Config.Transmute | crates/core/src/config.rs:52-86 | incomplete `Optional` is returned unchanged; complete `Optional` becomes `FilledIn` with the same strings and `reboot = flag.unwrap_or(false)`; `FilledIn` becomes `Optional` with every field `Some`; the `unreachable!()` is never reached |
| Config.TransmuteFilledInRoundTrip | crates/core/src/config.rs:59-84 | `transmute(transmute(FilledIn s)) == FilledIn s` |
| Config.TransmuteOptionalRoundTrip | crates/core/src/config.rs:59-84 | a complete `Optional` with its flag present survives promotion and demotion |
| Config.ToFilledInWithDefault | crates/core/src/config.rs:88-100 | `FilledIn` is returned unchanged; an `Optional` keeps each present field and takes "" or false for a missing one |
| Config.FilledInWithDefaultAgrees | crates/core/src/config.rs:52-100 | filling in with defaults agrees with `transmute` on complete settings and puts defaults exactly where fields are missing |
| Config.GetInitialSettings | crates/core/src/config.rs:103-118 | the six reads in field order, the first error ending the load, then `transmute` |
| Config.SaveOrderAscending | crates/core/src/config.rs:126-136 | the six keys are written in strictly ascending byte order, so the engine never refuses one as `NotSorted` |
| Config.KeysDistinct | crates/core/src/config.rs:6-11 | the six keys are pairwise distinct |
| Config.PlanOver | crates/core/src/config.rs:126-136 | the save writes six `Put`s, one per key, in the given key order |
| Config.SavePlanStores | crates/core/src/config.rs:120-141 | committing the save's writes stores each setting's encoding under its own key |
| Config.StageSettings | crates/core/src/config.rs:124-136 | with a healthy flash all six writes are staged in order; the first refused write is reported and nothing after it is staged |
| Config.StageInOrder | crates/core/src/config.rs:126-136 | the same for any six ascending keys, each taking its own setting |
| Config.StageString | crates/core/src/config.rs:126-128 | one `write_string` of the save: staged unless it is the refused write, whose error is reported |
| Config.StageBool | crates/core/src/config.rs:129-134 | the `write_bool` of the save, under the same rule |
| Config.SaveSettings | crates/core/src/config.rs:120-141 | with a healthy flash the six writes are committed once; a fault at any of the seven steps is reported and changes no record |
| Config.SaveLoadRoundTrip | crates/core/src/config.rs:103-141 | whatever the database held, settings within their capacities saved and then loaded come back as `FilledIn` of the same settings |
| Config.InitialSettings | crates/core/src/config.rs:103-118 | the six reads in field order, the first failure returned; what a save stored loads back as `FilledIn` of the saved settings (`AllPresentLoads`, `SaveLoadRoundTrip`) |
| Config.AllPresentLoads | crates/core/src/config.rs:103-118 | records from which every read yields the settings' fields load as `FilledIn` of those settings |
| Config.Stored | crates/core/src/config.rs:120-141 | after the save each key holds its own setting's encoding (`SavePlanStores`, `StoredValues`) |
| Config.StoredValues | crates/core/src/config.rs:126-138 | after the save each key holds its own setting's encoding |
| Config.SetReboot | crates/core/src/config.rs:143-149 | it never returns `Ok`: with a healthy flash it stores the flag true and resets; a write or commit failure is returned and changes nothing |
| Config.ErasedLoadsNothing | crates/core/src/config.rs:103-118 | after `init` has formatted the database, a faulted mount included, every field loads as missing and the device needs reconfiguration |
| Config.RebootFlagReadBack | crates/core/src/config.rs:143-149 | after `set_reboot` the next load needs reconfiguration |
| AirQuality.AiqFromScore | crates/core/src/air_quality.rs:11-20 | the category's rank is the number of edges 50, 150, 175, 200, 300 the score reaches, which makes the function total |
| AirQuality.EdgesReachedMonotone | crates/core/src/air_quality.rs:11-20 | a larger score reaches at least as many edges |
| AirQuality.AiqMonotone | crates/core/src/air_quality.rs:11-20 | a higher score never gets a better category |
| AirQuality.SaturatingU32 | crates/core/src/air_quality.rs:26-28 | `as u32` on a float is the floor inside the range and 0 below it |
| AirQuality.GasRef | crates/core/src/air_quality.rs:35-39 | the reference is 5000, 25000 or 50000, by the arm the resistance falls in |
| AirQuality.GasScore | crates/core/src/air_quality.rs:35-41 | the gas sub-score is 0, 33 or 75, with no underflow of `gas_ref - 5000` |
| AirQuality.Calculate | crates/core/src/air_quality.rs:22-46 | the category returned is `aiq_from_score` of the score returned |
| AirQuality.HumScore | crates/core/src/air_quality.rs:25-29 | a negative humidity misses both ranges and scores 41, its negative ratio saturating to 0 in `as u32`; on [0, 100] see `HumScoreOnRange` |
| AirQuality.HumScoreOnRange | crates/core/src/air_quality.rs:25-29 | on [0, 100] the humidity sub-score is 0 below 38, 25 on [38, 42], 41 on (42, 60) and 66 on [60, 100] |
| AirQuality.CalculateOnRange | crates/core/src/air_quality.rs:22-46 | on [0, 100] the score is at most 141 and the category is Good or Moderate |
| NetTime.WallClock | crates/core/src/net_time.rs:39-42 | `base + uptime_now - uptime_base` in `u32` arithmetic: exact without wrap-around, and `d` more seconds of uptime read `d` later modulo 2^32 (`WallClockExact`, `WallClockAdvances`) |
| NetTime.WallClockExact | crates/core/src/net_time.rs:39-42 | without wrap-around the clock reads the base plus the uptime since synchronisation |
| NetTime.WallClockAdvances | crates/core/src/net_time.rs:39-42 | `d` more seconds of uptime read as `d` more seconds, modulo 2^32 |
| NetTime.TimeState.constructor | crates/core/src/net_time.rs:19-24 | both stored values start at 0 |
| NetTime.TimeState.Set | crates/core/src/net_time.rs:26-30 | `set` stores the Unix time and the uptime narrowed to `u32` |
| NetTime.TimeState.Now | crates/core/src/net_time.rs:32-43 | `None` exactly while the stored base is 0; otherwise `base + uptime_now - uptime_base` in wrapping `u32` |
| NetTime.TimeState.NowOrUptime | crates/core/src/net_time.rs:45-47 | the wall clock when `now()` is `Some`, the uptime in seconds otherwise |
| NetTime.NowAfterSet | crates/core/src/net_time.rs:26-43 | after `set(unix)` at uptime u0, `now()` at uptime u reads `unix + (u - u0)` when nothing overflows |
| NetTime.BuildRequest | crates/core/src/net_time.rs:101-102 | a fresh 48-byte packet, all zero but byte 0, whose fields are LI 3, VN 4 and Mode 3 (section 7.3 of RFC 5905) |
| NetTime.BeBytesRoundTrip | crates/core/src/net_time.rs:129 | `from_be_bytes(to_be_bytes(x)) == x` |
| NetTime.BeBytesRoundTripBack | crates/core/src/net_time.rs:129 | `to_be_bytes(from_be_bytes(b)) == b` |
| NetTime.UnixSeconds | crates/core/src/net_time.rs:129-133 | bytes 40..43 read big-endian, minus 2208988800 with wrap-around; it recovers the time a response was built around (`UnixSecondsRoundTrip`) |
| NetTime.UnixSecondsRoundTrip | crates/core/src/net_time.rs:129-133 | a response whose bytes 40..43 hold `unix + 2208988800` decodes to `unix` |
| NetTime.SyncTime | crates/core/src/net_time.rs:78-134 | bind, send and receive errors map to their `NtpError`; a datagram shorter than 48 bytes is `Other`; otherwise the result is the big-endian transmit seconds minus the offset, wrapping below it |
| NetTime.LastSync | crates/core/src/net_time.rs:54-67 | the index of the last round that succeeded, or none when every round failed |
| NetTime.SyncTask | crates/core/src/net_time.rs:50-68 | the clock holds the result of the last successful round; failed rounds change nothing |
| Sensors.SampleOf | crates/core/src/sensors.rs:133-160 | each field comes from its own sensor, and the BME680 fields are all present or all absent (`Assemble`, `Bme680AllOrNothing`) |
| Sensors.Assemble | crates/core/src/sensors.rs:133-160 | the field-by-field assembly gives the cycle's sample |
| Sensors.Bme680AllOrNothing | crates/core/src/sensors.rs:142-150 | with BME680 data the five BME680 fields are all present, the score being `calculate(hum, gas).0`; without, all five are absent |
| Sensors.OneSensorFails | crates/core/src/sensors.rs:92-160 | a failed read of one sensor clears that sensor's fields and changes no other field |
| Sensors.FirstOf | crates/core/src/sensors.rs:297-309 | the first candidate that answers, and `None` exactly when none does (`FirstOfSpec`) |
| Sensors.FirstOfSpec | crates/core/src/sensors.rs:297-309 | the probe picks the first answering candidate, and fails only when none answers |
| Sensors.CreateSht40 | crates/core/src/sensors.rs:292-310 | `create_sht40` keeps the first of 0x44, 0x45, 0x46 whose serial number reads |
| Sensors.CreateBmp390 | crates/core/src/sensors.rs:312-328 | `create_bmp390` keeps the first of `Up`, `Down` where the driver initialises |
| Sensors.ProbeOrder | crates/core/src/sensors.rs:297-326 | an earlier address that answers always wins over a later one |
| Sensors.Probe | crates/core/src/sensors.rs:52-85 | each sensor is present exactly when its address answers and its set-up succeeds, or as its probe decides |
| Sensors.Effective | crates/core/src/sensors.rs:92-124 | a sensor not found at start-up yields no reading in any cycle, and with every sensor found the raw readings pass through unchanged |
| Sensors.Sleeps | crates/core/src/sensors.rs:126-170 | a warm-up cycle sleeps 3 s whatever it took; any other sleeps 60 s minus its measurement time |
| Sensors.Produced | crates/core/src/sensors.rs:126-166 | a run produces one sample per cycle after the skip count |
| Sensors.ProducedAt | crates/core/src/sensors.rs:126-166 | the `j`-th sample is the sample of cycle `skip + j`, timestamped with `now_or_uptime` at that cycle |
| Sensors.WarmUp | crates/core/src/sensors.rs:87-131 | the first ten cycles, of any length, queue nothing and sleep 3 s each |
| Sensors.AfterWarmUp | crates/core/src/sensors.rs:133-170 | after the warm-up cycle `k` gives sample `k - 10` and sleeps out the rest of its minute |
| Sensors.StepExtendsRun | crates/core/src/sensors.rs:89-171 | one more pass extends the run's skip count, sleeps and queue offers by that cycle's |
| Sensors.Task.constructor | crates/core/src/sensors.rs:47-87 | the probes decide presence once, and the skip count starts at 10 |
| Sensors.Task.Step | crates/core/src/sensors.rs:89-171 | a warm-up pass of any length counts down and sleeps 3 s; any other pass offers the sample (a full queue drops it and keeps its entries), raises `HAS_DATA` and sleeps the rest of the minute |
| Sensors.Task.Run | crates/core/src/sensors.rs:89-171 | a run asks for exactly the sleeps `Sleeps` gives and offers the queue exactly the samples `Produced` gives, in order |
| Sensors.Task.RunStep | crates/core/src/sensors.rs:89-171 | one turn of the loop extends the run by its cycle |
| Mqtt.NextBackoff | crates/core/src/mqtt.rs:137 | `(backoff * 2).min(30)` keeps the backoff in [1, 30], grows it below 30 and holds it at 30 (`NextBackoffInRange`) |
| Mqtt.NextBackoffInRange | crates/core/src/mqtt.rs:137 | doubling with the cap keeps the backoff in [1, 30], grows it below 30 and keeps it at 30 |
| Mqtt.Backoffs | crates/core/src/mqtt.rs:134-175 | `n` consecutive failures sleep `n` times |
| Mqtt.BackoffsSnoc | crates/core/src/mqtt.rs:134-175 | one more failure sleeps the current backoff, which then doubles up to 30 |
| Mqtt.DoubleCapped | crates/core/src/mqtt.rs:137 | doubling min(2^n, 30) with the cap gives min(2^(n+1), 30) |
| Mqtt.BackoffsFromReset | crates/core/src/mqtt.rs:116-179 | from the reset value 1 the n-th consecutive failure sleeps min(2^(n-1), 30) |
| Mqtt.CapReached | crates/core/src/mqtt.rs:137 | from the reset value 1, five consecutive failures reach the 30 s cap and every later failure sleeps 30 s |
| Mqtt.BackoffsInRange | crates/core/src/mqtt.rs:116-179 | every backoff of a run that starts in [1, 30] stays in [1, 30] |
| Mqtt.CommandTopic | crates/core/src/mqtt.rs:101-103 | the topic is `sensors/command`, a slash, then the client id |
| Mqtt.CommandTopicInjective | crates/core/src/mqtt.rs:101-103 | distinct client ids give distinct topics, and equal ids equal topics |
| Mqtt.TopicMatchesIff | crates/core/src/mqtt.rs:304-305 | the byte comparison of topics holds exactly when the topic equals the command topic |
| Mqtt.PollWithTimeout | crates/core/src/mqtt.rs:252-259 | a timer win is `Ok(None)`, never an error; otherwise the client's result is passed through |
| Mqtt.KeepsConnection | crates/core/src/mqtt.rs:293-335 | false exactly for `Ok(Some(Disconnected))` and `Err(_)` |
| Mqtt.RoutedCommandIff | crates/core/src/mqtt.rs:301-316 | a command is routed exactly when a message arrived on `sensors/command/<client_id>` and its payload parses to it |
| Mqtt.RoutingKeepsConnection | crates/core/src/mqtt.rs:301-334 | routing a command never ends the session |
| Mqtt.StepDecision | crates/core/src/mqtt.rs:239-248 | a pass at or after the deadline is `TimedOut`; before it, `Connected` is success, `Disconnected` is `TransportError`, a poll error is returned, anything else loops |
| Mqtt.WaitForFirstDecision | crates/core/src/mqtt.rs:236-250 | the wait ends with the first deciding pass's verdict, and is undecided exactly when no pass decides |
| Mqtt.ConnectedIff | crates/core/src/mqtt.rs:236-250 | the wait succeeds exactly when a pass before the deadline sees `Connected` and no earlier pass decided |
| Mqtt.DeadlineEndsWait | crates/core/src/mqtt.rs:237-242 | a pass at or after the deadline ends the wait |
| Mqtt.WaitForConnect | crates/core/src/mqtt.rs:236-250 | the loop's outcome is the first decision over its passes |
| Mqtt.Render | crates/core/src/mqtt.rs:340-367 | the buffer never passes 256 characters |
| Mqtt.BuildPayload | crates/core/src/mqtt.rs:337-371 | the ten `write!`s give the payload of the sample's members and the closing brace |
| Mqtt.WriteOptional | crates/core/src/mqtt.rs:341-367 | after an `inspect` the buffer is the rendering of the members so far followed by the field's member when present, and is unchanged when the field is absent |
| Mqtt.WriteMember | crates/core/src/mqtt.rs:340-367 | a member's `write!` that fits appends the separator, the quoted name, the colon and the value |
| Mqtt.RenderFits | crates/core/src/mqtt.rs:337-367 | members that fit are written in full: the JSON object without its closing brace |
| Mqtt.Members | crates/core/src/mqtt.rs:337-371 | the timestamp, then every present field under the builder's name, in fixed order, with gas and score never written (`PayloadIsJson`, `PayloadOmitsGasAndScore`) |
| Mqtt.Payload | crates/core/src/mqtt.rs:337-371 | with room for it, exactly the JSON object of those members; always within 256 characters and starting with `{"ts":` (`PayloadIsJson`, `PayloadStartsWithTimestamp`) |
| Mqtt.PayloadIsJson | crates/core/src/mqtt.rs:337-371 | with room for it, the payload is exactly the JSON object (section 4 of RFC 8259) of the present fields, in their fixed order, absent fields omitted |
| Mqtt.DecimalLength | crates/core/src/mqtt.rs:340 | a number below 10^(k+1) prints in at most k+1 digits |
| Mqtt.PayloadStartsWithTimestamp | crates/core/src/mqtt.rs:337-371 | whatever the fields, the payload fits 256 characters and starts with `{"ts":<timestamp>` |
| Mqtt.RenderPrefix | crates/core/src/mqtt.rs:340-367 | later writes keep the first member at the front |
| Mqtt.PayloadOmitsGasAndScore | crates/core/src/mqtt.rs:341-367 | the payload does not depend on `gas_ohm` or `aiq_score` |
| MqttLoop.MessageFor | crates/core/src/mqtt.rs:266-273 | the message `publish_sample` schedules for a sample; `MessagesFor` makes one per sample, in order (`MessagesFor`) |
| MqttLoop.MessagesFor | crates/core/src/mqtt.rs:266-273 | one QoS 1, non-retained message per sample, in order |
| MqttLoop.MessagesForAppend | crates/core/src/mqtt.rs:266-273 | the messages of two runs of samples are those of each, concatenated |
| MqttLoop.OutboxGrows | crates/core/src/mqtt.rs:210-221 | publishing the next sample of a burst extends the outbox by its message |
| MqttLoop.Client.constructor | crates/core/src/mqtt.rs:158-159 | a new client has accepted no publish |
| MqttLoop.Client.SchedulePublish | crates/core/src/mqtt.rs:275 | an accepted publish is appended to the outbox; a refused one changes nothing |
| MqttLoop.PublishSample | crates/core/src/mqtt.rs:261-291 | on acceptance the message is sent, `true` is returned and the sensor queue is untouched; on refusal the sample is offered back to the queue (dropped when full) and `false` is returned |
| MqttLoop.AfterPoll | crates/core/src/mqtt.rs:293-335 | the command queue after a poll: offered the routed command, unchanged when there is none (`HandlePollResult`) |
| MqttLoop.HandlePollResult | crates/core/src/mqtt.rs:293-335 | the verdict is `KeepsConnection`, and the command queue is offered exactly the routed command (a full queue drops it) |
| MqttLoop.BurstLength | crates/core/src/mqtt.rs:203-221 | a burst takes at least one and at most 1 + 4 samples, fewer only when the channel runs out |
| MqttLoop.BurstSent | crates/core/src/mqtt.rs:203-221 | a burst publishes at most its length, and a refused publish leaves at least one sample unpublished |
| MqttLoop.Requeued | crates/core/src/mqtt.rs:275-288 | a sample is handed back exactly when the burst fails |
| MqttLoop.QueueAfterBurst | crates/core/src/mqtt.rs:203-221 | the sensor queue after a burst is the old queue, with the refused sample offered when there is one |
| MqttLoop.BurstPartition | crates/core/src/mqtt.rs:203-221 | published, handed-back and left samples are the channel, in order; at most 5 are published, and fewer only when the channel emptied or a publish failed |
| MqttLoop.BurstRefused | crates/core/src/mqtt.rs:203-221 | when publish `k` is refused, `k` samples went out, sample `k` goes back and the rest stay in the channel |
| MqttLoop.BurstCompleted | crates/core/src/mqtt.rs:203-221 | a burst with no refusal that stops at an empty channel or at the limit publishes its `k + 1` samples and hands nothing back |
| MqttLoop.Handshake | crates/core/src/mqtt.rs:134-175 | an attempt connects exactly when TCP, `schedule_connect` and a `Connected` before the deadline all succeed (`HandshakeDoneIff`) |
| MqttLoop.HandshakeDoneIff | crates/core/src/mqtt.rs:134-175 | an attempt connects exactly when TCP, `schedule_connect` and a `Connected` before the deadline all succeed |
| MqttLoop.TickEffect | crates/core/src/mqtt.rs:190-229 | one pass of the connected loop on values: a waiting sample wins the select and runs the burst; a poll is handled only on an empty channel (`PollOnlyOnEmptyChannel`); `ConnectedTick` is proved to have exactly this effect |
| MqttLoop.PollOnlyOnEmptyChannel | crates/core/src/mqtt.rs:196-201 | while a sample waits in the channel the pass publishes and leaves the command queue alone: the receive arm, polled first, wins |
| MqttLoop.StopAt | crates/core/src/mqtt.rs:190-230 | the connected loop stops at a tick within the run, or after all of it |
| MqttLoop.StopsAtFirstBreak | crates/core/src/mqtt.rs:190-230 | every tick before the stop kept the session; the stopping tick broke it; the loop leaves what that tick left, or what all ticks left when none broke it |
| MqttLoop.Session.constructor | crates/core/src/mqtt.rs:105-121 | the loop starts with backoff 1 and no sleeps |
| MqttLoop.Session.PublishNext | crates/core/src/mqtt.rs:211-219 | an empty channel ends the burst; otherwise its front sample is published or handed back |
| MqttLoop.Session.PublishBurst | crates/core/src/mqtt.rs:203-222 | the receive arm: success exactly when no publish failed; the outbox, the channel and the sensor queue are those of the burst functions |
| MqttLoop.Session.PublishMore | crates/core/src/mqtt.rs:210-221 | the `for _ in 0..PUBLISH_BURST` loop has the same effect, after the first publish |
| MqttLoop.Session.BurstStep | crates/core/src/mqtt.rs:211-219 | one `try_receive` of the burst: stops on an empty channel, otherwise publishes or hands back the next sample |
| MqttLoop.Session.ConnectedTick | crates/core/src/mqtt.rs:190-229 | a timer error breaks and raises `DOWN`; a sample waiting in the channel wins the select and runs the burst; on an empty channel a completed poll keeps the session by `KeepsConnection` and routes its command, and a pending one changes nothing; every break raises `DOWN`; the outbox and the three queues change exactly as `TickEffect` says |
| MqttLoop.Session.Connected | crates/core/src/mqtt.rs:190-230 | returns the index of the first tick that broke the session (`StopAt`), or the run's length; the outbox and queues are what the ticks up to it left (`AfterTicks`); `DOWN` is raised exactly when the loop stopped |
| MqttLoop.Session.BackOff | crates/core/src/mqtt.rs:136-137 | sleep the backoff, then double it up to 30 |
| MqttLoop.Session.RunAttempt | crates/core/src/mqtt.rs:123-233 | a failed handshake sleeps and doubles the backoff; a waiting one changes nothing; a successful one raises `READY`, resets the backoff to 1 and runs the connected loop, ending exactly when a tick broke the session, with the outbox and queues that `AfterTicks` gives; no handshake short of success touches the outbox or queues |
| MqttLoop.Session.Run | crates/core/src/mqtt.rs:105-234 | goes on after every failed handshake and broken session and stops after the first attempt still connecting or connected; the backoff, the sleeps and `READY` are those of `BackoffAfterAttempts`, `AttemptSleeps` and `AnyConnect` over the attempts made; `DOWN` is raised exactly when some session broke; the outbox and queues are what the sessions left; with every handshake failing, the sleeps are the doubling sequence |
| MqttLoop.Session.RunStep | crates/core/src/mqtt.rs:123-233 | one turn of the loop extends the run's state, backoff, sleeps and signals by that attempt's outcome |
| MqttLoop.AttemptsSnoc | crates/core/src/mqtt.rs:123-233 | one more attempt: a failure sleeps the backoff and doubles it, a connect resets it to 1, a wait leaves it; the state and the broken sessions grow by that attempt's |
| MqttLoop.AllAttemptsFail | crates/core/src/mqtt.rs:134-175 | a run of failed handshakes sleeps the doubling backoff sequence and leaves the backoff where it leaves it |
| MqttLoop.AllFailedRunsThrough | crates/core/src/mqtt.rs:105-180 | when every handshake fails the loop takes every attempt, with the doubling sleeps |
| MqttLoop.ResetThenFailedAttempts | crates/core/src/mqtt.rs:161-180 | after the last connected session, m failed handshakes sleep 1, 2, 4, ... capped at 30 and leave the backoff at min(2^m, 30) |
| MqttLoop.FailuresAfterReset | crates/core/src/mqtt.rs:161-180 | after a connected session the k-th failed handshake sleeps min(2^k, 30) |
| MqttLoop.Publisher.constructor | crates/core/src/mqtt.rs:85 | the publisher starts holding no sample |
| MqttLoop.Publisher.Blocked | crates/core/src/mqtt.rs:85-98 | it blocks exactly when waiting for `HAS_DATA` with nothing held, or holding a sample with the channel full |
| MqttLoop.Publisher.Wake | crates/core/src/mqtt.rs:85-98 | no sample is lost, duplicated or reordered, the channel only grows at its back, and afterwards the queue is drained or the channel is full |
| MqttLoop.Publisher.Drain | crates/core/src/mqtt.rs:89-97 | the `while let` loop keeps every sample in order and stops at an empty queue or a full channel |
| MqttLoop.ExecuteNext | crates/core/src/mqtt.rs:72-83 | with no command nothing happens; a reboot command runs `set_reboot`, whose failure changes nothing |
| LegacyWifi.PassSleep | src/wifi.rs:15-36 | 5 s while the link is up, nothing after a successful connect, the backoff after a failed one; failures sleep the doubling sequence (`AllFailures`) |
| LegacyWifi.AllFailures | src/wifi.rs:30-34 | a run of failed passes sleeps the doubling backoff sequence |
| LegacyWifi.ResetThenFailures | src/wifi.rs:13-36 | after the last pass with the link up, m failures leave the backoff at min(2^m, 30) |
| LegacyWifi.Task.constructor | src/wifi.rs:13 | the backoff starts at 1 |
| LegacyWifi.Task.Step | src/wifi.rs:15-36 | a connected link raises `UP`, resets the backoff and sleeps 5 s; an `is_connected` error counts as not connected; a successful connect raises `UP` and resets; a failed one sleeps the backoff and doubles it up to 30 |
| LegacyWifi.Task.Run | src/wifi.rs:13-36 | the backoff stays in [1, 30]; the sleeps are those the passes determine; `UP` is raised exactly when some pass ended with the link up |
| LegacyMqtt.Payload | src/mqtt.rs:86-96 | the six-field line in fixed order, cut to 256 characters, and the whole line when it fits (`PayloadIsJsonLine`) |
| LegacyMqtt.PayloadIsJsonLine | src/mqtt.rs:86-96 | the payload is the six-field line in its fixed order, cut to 256 characters, and the whole line when it fits |
| LegacyMqtt.MessageOf | src/mqtt.rs:97-108 | the QoS 1, retained publication on the fixed topic carrying the payload; the only message a session can deliver (`Delivered`) |
| LegacyMqtt.Delivered | src/mqtt.rs:80-113 | at most one publication, of the front sample, and only when the client delivers it |
| LegacyMqtt.SleepActions | src/mqtt.rs:43-50 | one sleep action per backoff, in order |
| LegacyMqtt.AttemptShape | src/mqtt.rs:43-131 | a session publishes at most the front sample, ends with a disconnect and sleeps nothing; a failed attempt only sleeps the backoff |
| LegacyMqtt.Session.constructor | src/mqtt.rs:30 | the backoff starts at 1 and nothing has happened |
| LegacyMqtt.Session.Wait | src/mqtt.rs:33-34 | the cycle starts only once `HAS_DATA` and then `UP` have been waited for |
| LegacyMqtt.Session.RunAttempt | src/mqtt.rs:36-131 | a TCP failure sleeps and doubles without `DOWN`; a broker refusal raises `DOWN`, sleeps and doubles; a session raises `READY`, resets the backoff, dequeues at most one sample, publishes it and disconnects |
| LegacyMqtt.Session.BackOff | src/mqtt.rs:125-130 | sleep the backoff, then double it up to 30 |
| LegacyMqtt.Session.Run | src/mqtt.rs:32-133 | `READY` is raised exactly when some attempt reached the broker, `DOWN` exactly when some broker refused; with no session the sleeps are the doubling sequence |
| LegacySensors.SampleFields | src/sensors.rs:132-144 | every field comes from its own reading and the score is `calculate(humidity, gas_ohm).0`, at most 141 on the physical range |
| LegacySensors.Sleeps | src/sensors.rs:125-164 | a warm-up cycle sleeps 3 s whatever it took; any other sleeps 60 s minus its measurement time |
| LegacySensors.Produced | src/sensors.rs:125-160 | one sample per cycle after the skip count |
| LegacySensors.ProducedAt | src/sensors.rs:125-160 | the `j`-th sample is the sample of cycle `skip + j` |
| LegacySensors.WarmUp | src/sensors.rs:111-130 | the first ten cycles, of any length, queue nothing and sleep 3 s each |
| LegacySensors.AfterWarmUp | src/sensors.rs:132-164 | after the warm-up cycle `k` gives sample `k - 10` and sleeps the rest of its minute |
| LegacySensors.StepExtendsRun | src/sensors.rs:113-165 | one more pass extends the run's skip count, sleeps and queue offers by that cycle's |
| LegacySensors.Task.constructor | src/sensors.rs:111 | the skip count starts at 10 |
| LegacySensors.Task.Step | src/sensors.rs:113-165 | a warm-up pass of any length counts down and sleeps 3 s; any other offers its sample (dropped when full), raises `HAS_DATA` and sleeps the rest of the minute |
| LegacySensors.Task.Run | src/sensors.rs:113-165 | a run asks for exactly the sleeps `Sleeps` gives and offers exactly the samples `Produced` gives, in order |
| LegacySensors.Task.RunStep | src/sensors.rs:113-165 | one turn of the loop extends the run by its cycle |
| LegacyStorage.Next | src/storage.rs:64-66 | `next` adds one, and wraps to 0 at `u32::MAX` |
| LegacyStorage.AsBytes | src/storage.rs:68-70 | `as_bytes` gives four bytes from which `Key::from` returns the key |
| LegacyStorage.KeyBytesInverse | src/storage.rs:51-70 | `from`, `into` and `as_bytes` are little-endian and inverse in both directions |
| LegacyStorage.SampleKeyIsNotCounter | src/storage.rs:149 | no sample key is the counter's key |
| LegacyStorage.NextKeySpec | src/storage.rs:148-162 | success exactly when read, write and commit succeed, returning the counter and storing it plus one; a failure changes nothing; a missing counter is a `KeyNotFound` read error |
| LegacyStorage.StoreSpec | src/storage.rs:118-129 | a `next_key` failure is returned; otherwise the sample is stored under the returned key and committed, and a later failure keeps the counter's commit |
| LegacyStorage.GetSpec | src/storage.rs:131-138 | every read error is returned, a missing key among them; a found value is decoded from the zero-padded buffer |
| LegacyStorage.DropSpec | src/storage.rs:140-146 | success exactly when the delete and the commit succeed, removing just that key; a failure changes nothing |
| LegacyStorage.NextWraps | src/storage.rs:64-66 | `next` of `u32::MAX` is 0 |
| LegacyStorage.FreshDatabaseRefusesStore | src/storage.rs:148-162 | on a freshly formatted database `store` fails with `KeyNotFound` and writes nothing |
| LegacyStorage.CounterAdvances | src/storage.rs:148-162 | after a successful `next_key` the counter reads one more than the key returned |
| LegacyStorage.SuccessiveStoresIncrease | src/storage.rs:118-162 | two successful stores in a row take successive keys |
| LegacyStorage.StoreThenGet | src/storage.rs:118-138 | `get` of the key `store` returned decodes the serialised bytes padded with zeros |
| LegacyStorage.DropRemovesExactly | src/storage.rs:140-146 | `drop` removes its key and keeps every other record, the counter among them |
| LegacyStorage.DbProxy.constructor | src/storage.rs:112-116 | the proxy wraps the given database |
| LegacyStorage.DbProxy.NextKey | src/storage.rs:148-162 | the result and the new records are those of `NextKeySpec` |
| LegacyStorage.DbProxy.Store | src/storage.rs:118-129 | the result and the new records are those of `StoreSpec` |
| LegacyStorage.DbProxy.WriteAndCommit | src/storage.rs:157-159 | one write transaction: the key takes the data exactly when write and commit succeed; a failure changes nothing and is named |
| LegacyStorage.DbProxy.Get | src/storage.rs:131-138 | the result is that of `GetSpec`, and nothing changes |
| LegacyStorage.DbProxy.Drop | src/storage.rs:140-146 | the result and the new records are those of `DropSpec` |
| LegacyStorage.Init | src/storage.rs:165-175 | it formats whenever mounting fails, a flash error included; a mounted database keeps its records and a fresh format leaves it empty |

## Left out

- I/O, timers and concurrency. Sockets, the I2C bus, the flash driver and
  the MQTT client are inputs. Embassy's `select`, `join3`, `Mutex`,
  `Signal` and `Channel` are modelled sequentially. In the connected
  loop's select the model itself decides which arm wins. The receive arm
  is polled first, so a waiting sample always wins; on an empty channel,
  the `Tick` input says whether the poll completes.
- The MQTT client library is a black box. Its internals, keep-alive timers
  and packet encoding are left out: `poll_io`, `poll_timers`,
  `schedule_connect` and `schedule_publish` are inputs. `try_new` is
  assumed to succeed; the panic of its `unwrap` is not modelled.
  `schedule_subscribe`'s result is only logged, so it is left out. QoS 1
  is only a label on the message.
- `Command::try_from` is not part of this model. The parse is a parameter
  `parse`, a partial function from messages to commands.
- Logging (`info!`, `warn!`), `bme680_error`, `print_wifi_error` and the
  Wi-Fi `setup` sequence are left out. None of them decides anything.
- `Mqtt.Render`, `Mqtt.Payload`, `LegacyMqtt.Payload`: the 256 of
  `String<256>` bounds the payload in characters, not in UTF-8 bytes. The
  keys, digits and punctuation are ASCII, one byte each, and so is the
  text `Display` prints for an `f32`. The `show` parameter is not
  constrained to ASCII, so a `show` that printed other characters would
  fit text the source's buffer would refuse.
- `f32` values and their `Display` are left out. Readings are reals that
  are carried but never computed with, except in `calculate`. Their text is
  a parameter `show` and is treated as one `write_str` piece.
- The SHT40 scaling (`milli as f32 / 1000.0`) is exact division of reals.
  `f32` rounding is not modelled.
- Postcard serialisation is left out. In the old sample store it is an
  `encode`/`decode` parameter pair.
- `heapless::spsc::Queue<Sample, 64>` is a `Sync.Fifo` whose usable
  capacity is a parameter, because heapless 0.8 keeps one slot free.
- The radio, the `wifi::UP` wait of `mqtt_loop`, the network-up wait and
  the six-hour sleep of `sync_task` are the gaps between inputs.
- `EspFlash` in `src/storage.rs` (every method `todo!()`) is not modelled.
  The old store runs on the same engine model as the new one.
- `Sensors.Sleeps`, `LegacySensors.Sleeps`: a cycle after the warm-up
  whose measurements take longer than 60 s would make the `Duration`
  subtraction panic. The model reduces this to the precondition
  `InPeriod(skip, cycles)`, which bounds only the cycles after the warm-up;
  a warm-up cycle sleeps a fixed 3 s and may take any time.
- `LegacySensors.Task.Step`: every sensor call of the old task ends in
  `unwrap`. A read failure would stop the firmware, so cycles carry plain
  readings with no error case.
- `LegacyMqtt.Session.RunAttempt`: the connect options, client id, broker
  address and topic are fixed constants of the source. Only the topic and
  the retain flag appear in the model.
- `MqttLoop.TickEffect`: when the channel is empty and the `Tick` brings
  no completed poll, the model's pass changes nothing. This stands for the
  select still pending when the publisher's next sample arrives.
- `Mqtt.WaitForConnect`, `MqttLoop.Session.Run` and the other loops run
  over a finite sequence of inputs. The source's loops are endless, and
  each model states what holds after any finite prefix.
- `NetTime.SyncTime`: the 48-byte receive buffer cannot hold a longer
  datagram, so the input datagram is at most 48 bytes.
- `crates/core/src/air_quality.rs` has no state and no I/O, and all of it
  is modelled. `src/air_quality.rs` is not part of this model.
- `LegacySensors.SampleOf`, `LegacySensors.SampleFields`: `src/sensors.rs`
  scores with `calculate` of `src/air_quality.rs`, which is not part of
  this model. The core `AirQuality.Calculate` of
  `crates/core/src/air_quality.rs` stands in for it, so the score and its
  bound of 141 hold only as far as the two scorers agree.
- `AirQuality.HumScore`: a NaN humidity fails every range test and falls
  to the `_` arm, whose `as u32` turns NaN into 0, so it scores 41. A `real` has
  no NaN, so that input cannot be stated.
- `Ekv.Stage`: ekv's `KeyTooBig` and `ValueTooBig` write errors are not
  told apart. A write that fails for any reason is the single injected
  write fault, which every caller handles the same way.
- Other files of the repository are not part of this model: BLE, DHCP,
  the web server, the LEDs and display, the system flag, the firmware
  entry points and the crate's module list.
