# Broadlink universal-remote command codec, in Dafny

This project models the byte-level command codec of Broadlink universal
remotes (`broadlink/remote.py`). Two device generations share one set of
operations and differ in framing:

- `rm` (here `GenA`) frames a command as `<I command` followed by the data and
  strips a 4-byte header from the decrypted reply;
- `rm4` (here `GenB`) frames it as `<H len(data)+4`, `<I command`, then the
  data, strips a 6-byte header, reads temperature and humidity in hundredths
  instead of temperature in tenths, and adds `check_humidity`.

Every command travels under request type 0x6A. The reply's 16-bit
little-endian status at offsets 0x22..0x24 must be zero; only then is
`reply[0x38:]` decrypted and the header dropped.

Files:

- `results.dfy`: module `Results`, with `Option` and `Result`.
- `bytes.dfy`: module `Bytes`. It holds the byte type, little-endian encoding
  and decoding (`struct.pack("<H")` and `struct.pack("<I")`), and Python's
  clamping slices.
- `remote.dfy`: module `Remote`, the codec. It covers framing (`BuildBody`,
  with its inverse `ParseBody`), the status gate (`CheckStatus`), unframing
  (`Unframe`), `_send_command` (`SendCommand`), sensor decoding
  (`DecodeSensors`, with the device-side `EncodeSensors`), and the public
  operations as an `Operation` datatype run by `Perform`.
- `remote_lemmas.dfy`: module `RemoteProofs`, lemmas that relate the operations
  to each other and to their inverses (parsing for framing, a device-side
  encoder for sensor decoding).
- `remote_examples.dfy`: module `RemoteExamples`, concrete exchanges with a
  fixed reply and a stub cipher.

The transport (`send_packet`) and the cipher (`decrypt`) are function
parameters (`Transport`, `Cipher`). Each returns either bytes or a failure
reason, and `SendCommand` passes those failures on as `TransportError` /
`CryptoError`. Sensor readings are exact fixed-point values (`Fixed(units,
scale)`). The contracts of `DecodeSensors` and `Interpret` state that their
real value equals the source formula `data[0] + data[1] / 10.0` (or `/ 100.0`).

On these edge cases the model does what `remote.py` does:

- A decrypted payload shorter than the header gives an empty result, as
  Python's `payload[0x4:]` does. It is not a decode error.
- `check_frequency` and `find_rf_packet` on an empty result fail with
  `IndexError` (from `data[0]`). They do not return false.
- `check_humidity` exists only on `rm4`. On `rm` the model answers
  `NoSuchOperation`, matching Python's `AttributeError`.

## Model

| member | source | states |
|---|---|---|
| Bytes.EncodeLe | broadlink/remote.py:18 | The n-byte little-endian packing of a value that fits has length n and decodes back to the value. |
| Bytes.Le16 | broadlink/remote.py:74 | `struct.pack("<H", v)` for `v` below 2^16: two bytes that decode little-endian to `v`. |
| Bytes.Le32 | broadlink/remote.py:18 | `struct.pack("<I", v)` for `v` below 2^32: four bytes that decode little-endian to `v`. |
| Bytes.EncodeDecode | broadlink/remote.py:74 | Every byte string is the little-endian packing of the value it decodes to, so packed fields can be read back exactly. |
| Bytes.Drop | broadlink/remote.py:22 | Python's `s[k:]`: its length is `max(0, |s| - k)` and its i-th byte is `s[k+i]`. |
| Bytes.Slice | broadlink/remote.py:20 | Python's `s[lo:hi]` with both ends clamped: the length is clamped the same way, and the i-th byte is `s[lo+i]`. |
| Remote.BuildBody | broadlink/remote.py:74 | Packing succeeds exactly when the command fits 32 bits and, for rm4, `len(data)+4` fits 16 bits. Otherwise it is `PackError`. The body has length header+data. The 4 bytes before the data decode to the command, and the tail is the data. For rm4, the first 2 bytes decode to `len(data)+4`. The rm layout is line 18. |
| RemoteProofs.ParseBuild | broadlink/remote.py:18 | Parsing a framed body gives back exactly the command and the data (round trip). |
| RemoteProofs.BuildParse | broadlink/remote.py:74 | Every body that parses, including a correct rm4 length field, is the framing of what it parses to (the converse round trip). |
| RemoteProofs.BuildInjective | broadlink/remote.py:18 | Different (command, data) pairs never produce the same packet body. |
| Remote.CheckStatus | broadlink/remote.py:20 | The reply passes exactly when it has at least 0x24 bytes and both status bytes are zero. If it is too short, the result is `StatusUnreadable`. Otherwise the failure is `DeviceError` carrying the non-zero code `reply[0x22] + 256*reply[0x23]`. |
| Remote.Unframe | broadlink/remote.py:20-22 | A status failure is returned unchanged. Success means the status passed and `decrypt(reply[0x38:])` succeeded. The result then has length `max(0, |plain| - header)` and is the tail after the header. After a passing status, a decryption failure gives exactly `CryptoError` with the cipher's reason. |
| Remote.SendCommand | broadlink/remote.py:16-22 | The result is `PackError` exactly when packing is impossible. When the request packs, a transport failure gives exactly `TransportError` with the transport's reason, and a transport reply gives exactly the unframing of that reply. The framed body is sent under request type 0x6A. |
| RemoteProofs.StatusGate | broadlink/remote.py:75-77 | A reply with a non-zero status fails with `DeviceError` of exactly that code, whatever the cipher, so decryption is never reached. |
| RemoteProofs.ZeroStatusUnframes | broadlink/remote.py:76-78 | With a zero status and a successful decryption, the result is the plain text minus the 4-byte (rm) or 6-byte (rm4) header. |
| RemoteProofs.CipherOnlyAfterStatus | broadlink/remote.py:19-21 | Every failure other than a decryption failure is the same for every cipher. |
| RemoteProofs.OnlyTheBodyIsSent | broadlink/remote.py:19 | An operation's outcome depends on the transport only through its answer to the framed body under 0x6A. |
| Remote.DecodeSensors | broadlink/remote.py:84-90 | The decoder needs at least 2 (rm) or 4 (rm4) result bytes, and otherwise fails with `IndexError`. The temperature's value is `data[0] + data[1]/10` (rm) or `data[0] + data[1]/100` (rm4). rm4 alone adds humidity `data[2] + data[3]/100`. |
| RemoteProofs.SensorsRoundTrip | broadlink/remote.py:58-61 | Decoding recovers every reading a device encodes as an integer byte and a fraction byte. |
| Remote.Interpret | broadlink/remote.py:24-61 | `check_data` returns the raw result. The flag queries succeed exactly on a non-empty result and answer true iff `result[0] == 1`. Sensor queries succeed exactly on results long enough for the generation and otherwise fail with `IndexError`. `check_sensors` returns the decoded reading, and temperature/humidity carry the source formula. Every other operation answers `Done`. |
| Remote.Perform | broadlink/remote.py:24-90 | An operation fails with `NoSuchOperation` exactly when it is `check_humidity` on rm, which exists only on rm4 (line 80), and it fails before anything is sent. Otherwise a command failure is the operation's failure, and a successful command's result is always interpreted, giving exactly the interpretation. |
| Remote.Opcode | broadlink/remote.py:24-60 | Each operation's command fits one byte and is non-zero. An operation sends 0x1 or 0x24 exactly when it is a sensor query, with 0x1 on rm and 0x24 on rm4 (line 86). Every other operation sends one of 0x2, 0x3, 0x4, 0x19, 0x1A, 0x1B, 0x1E. |
| RemoteProofs.InheritedOpcodes | broadlink/remote.py:64-90 | rm and rm4 send the same opcode for an operation exactly when it is not a sensor query (0x1 versus 0x24). |
| RemoteProofs.OpcodesDistinguish | broadlink/remote.py:24-52 | Within one generation, two operations share an opcode exactly when both are sensor queries, both send a code, or they are the same operation. |
| RemoteProofs.RequestPackable | broadlink/remote.py:74 | Every operation's request packs, except an rm4 `send_data` whose code makes `len+4` overflow 16 bits. |
| RemoteProofs.RequestCarriesOperation | broadlink/remote.py:28-30 | Each operation's packet body parses back to its opcode and its data (the code, for `send_data`). |
| RemoteProofs.FlagIsFirstByte | broadlink/remote.py:44-52 | `check_frequency` and `find_rf_packet` answer true iff the first result byte is 1, answer false iff it is another value, and fail with `IndexError` on an empty result. |
| RemoteProofs.TemperatureProjects | broadlink/remote.py:54-56 | `check_temperature` fails exactly when `check_sensors` does, with the same error. Otherwise it returns the temperature field. |
| RemoteProofs.HumidityProjects | broadlink/remote.py:80-82 | On rm4, `check_humidity` fails exactly when `check_sensors` does. Otherwise it returns the humidity field, which is always present. |
| RemoteExamples.GenATemperature | broadlink/remote.py:58-61 | An rm reply decrypting to `0,0,0,0,21,5` reads temperature 21.5. |
| RemoteExamples.GenBSensors | broadlink/remote.py:84-90 | An rm4 reply decrypting to six header bytes then `21,50,45,30` reads temperature 21.5 and humidity 45.3. |
| RemoteExamples.DeviceErrorBeforeDecrypt | broadlink/remote.py:19-21 | Status bytes `01 00` fail every operation the generation has whose request packs with `DeviceError(1)`, even with a cipher that would fail. |

## Left out

- `send_packet` (the transport) is not part of this model. It is a parameter: the raw reply, or a failure reason, for a request type and body.
- `decrypt` (AES) is not part of this model. It is a parameter from cipher text to plain text or a failure reason.
- `check_error` (in `exceptions.py`) is not part of this model. The model keeps only "zero passes, non-zero fails with the code", plus a failure when the status field is shorter than two bytes. The mapping from codes to exception classes, and whether the code is read signed, are not modelled.
- Floating point: readings are exact fixed-point values, and their real value is the source formula without float rounding.
- Constructors, the `self.type` strings, discovery, authentication, timeouts and concurrency have no counterpart here.
- Operations that return `None` in Python (`send_data`, `enter_learning`, `sweep_frequency`, `cancel_sweep_frequency`) answer `Done`.
- Remote.Opcode: the contract states the value ranges and the sensor split; which non-sensor operation sends which of the seven commands is the table in its body, with no separate statement, because an ensures per operation would only repeat that table (`RemoteProofs.OpcodesDistinguish` shows the table is one-to-one).
