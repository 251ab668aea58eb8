/**
 * The command codec of Broadlink universal remotes (`rm`, the RM2 family, and
 * `rm4`). A logical operation is framed into a packet body, handed to the
 * transport under request type 0x6A, and the raw reply is gated on its status
 * field, decrypted from offset 0x38, and stripped of a generation-specific
 * header. The transport and the cipher are parameters: their code is not part
 * of this model.
 */
module Remote {
  import opened Results
  import opened Bytes

  /** The device generation: `GenA` is class `rm`, `GenB` is class `rm4`. */
  datatype Variant = GenA | GenB

  /** Request type under which every command packet is sent. */
  const CommandRequest: nat := 0x6A
  /** Offset of the 2-byte little-endian status field in a raw reply. */
  const StatusOffset: nat := 0x22
  /** Offset at which the encrypted part of a raw reply starts. */
  const PayloadOffset: nat := 0x38

  /** Bytes in front of the command data in a packet body: `<I` (`rm`) or `<HI` (`rm4`). */
  function FrameLen(v: Variant): nat
  {
    match v
    case GenA => 4
    case GenB => 6
  }

  /** Bytes dropped from the front of a decrypted reply: `payload[0x4:]` (`rm`) or `payload[0x6:]` (`rm4`). */
  function ReplyHeaderLen(v: Variant): nat
  {
    match v
    case GenA => 0x4
    case GenB => 0x6
  }

  /** Why an operation produced no value. */
  datatype Error =
    /** `struct.pack` refused a value that does not fit its field. */
    | PackError
    /** The transport failed; its reason is passed on unchanged. */
    | TransportError(reason: string)
    /** The reply is too short to hold the 2-byte status field. */
    | StatusUnreadable
    /** The device reported a non-zero status. */
    | DeviceError(code: nat)
    /** Decryption failed; its reason is passed on unchanged. */
    | CryptoError(reason: string)
    /** A result byte was read past the end of the result. */
    | IndexError
    /** The operation does not exist on this generation (`check_humidity` on `rm`). */
    | NoSuchOperation

  /** `send_packet`: request type and packet body in, raw reply (or a failure reason) out. */
  type Transport = (nat, Bytes) -> Result<Bytes, string>

  /** `decrypt`: cipher text in, plain text (or a failure reason) out. */
  type Cipher = Bytes -> Result<Bytes, string>

  // ---------------------------------------------------------------- framing

  /** The values `struct.pack` accepts for this generation's packet header. */
  predicate Packable(v: Variant, command: int, data: Bytes)
  {
    && 0 <= command < 0x1_0000_0000
    && (v == GenB ==> |data| + 4 < 0x1_0000)
  }

  /**
   * The packet body: `<I command` then the data for `rm`; `<H len(data)+4`,
   * `<I command`, then the data for `rm4`.
   */
  function BuildBody(v: Variant, command: int, data: Bytes): (r: Result<Bytes, Error>)
    ensures r.Success? <==> Packable(v, command, data)
    ensures r.Failure? ==> r.error == PackError
    ensures r.Success? ==>
      && |r.value| == FrameLen(v) + |data|
      && DecodeLe(r.value[FrameLen(v) - 4 .. FrameLen(v)]) == command
      && r.value[FrameLen(v)..] == data
      && (v == GenB ==> DecodeLe(r.value[..2]) == |data| + 4)
  {
    if !Packable(v, command, data) then Failure(PackError)
    else
      match v
      case GenA => Success(Le32(command) + data)
      case GenB => Success(Le16(|data| + 4) + Le32(command) + data)
  }

  /**
   * How the device reads a packet body back into command and data: the
   * inverse of `BuildBody`. An `rm4` body must carry its own length correctly.
   */
  function ParseBody(v: Variant, body: Bytes): (r: Option<(nat, Bytes)>)
    ensures r.Some? ==> r.value.0 < 0x1_0000_0000 && |body| == FrameLen(v) + |r.value.1|
  {
    Pow256Widths();
    if |body| < FrameLen(v) then None
    else if v == GenB && DecodeLe(body[..2]) != |body| - 2 then None
    else Some((DecodeLe(body[FrameLen(v) - 4 .. FrameLen(v)]), body[FrameLen(v)..]))
  }

  // -------------------------------------------------------------- unframing

  /** `check_error(response[0x22:0x24])`: only a zero status lets the reply through. */
  function CheckStatus(response: Bytes): (r: Result<(), Error>)
    ensures r.Success? <==>
      |response| >= StatusOffset + 2 && response[StatusOffset] == 0 && response[StatusOffset + 1] == 0
    ensures r == Failure(StatusUnreadable) <==> |response| < StatusOffset + 2
    ensures r.Failure? && r.error.DeviceError? ==>
      r.error.code != 0 && r.error.code == response[StatusOffset] as int + 0x100 * response[StatusOffset + 1] as int
    ensures r.Failure? ==> r.error == StatusUnreadable || r.error.DeviceError?
  {
    var field := Slice(response, StatusOffset, StatusOffset + 2);
    if |field| < 2 then Failure(StatusUnreadable)
    else
      DecodeLe16(field);
      var code := DecodeLe(field);
      if code == 0 then Success(()) else Failure(DeviceError(code))
  }

  /**
   * The second half of `_send_command`: gate on the status, decrypt
   * `response[0x38:]`, and drop the header (Python slicing: an empty result
   * when the plain text is shorter than the header).
   */
  function Unframe(v: Variant, decrypt: Cipher, response: Bytes): (r: Result<Bytes, Error>)
    ensures CheckStatus(response).Failure? ==> r == Failure(CheckStatus(response).error)
    ensures r.Success? <==>
      CheckStatus(response).Success? && decrypt(Drop(response, PayloadOffset)).Success?
    ensures r.Success? ==>
      var plain := decrypt(Drop(response, PayloadOffset)).value;
      && |r.value| == (if |plain| < ReplyHeaderLen(v) then 0 else |plain| - ReplyHeaderLen(v))
      && (|plain| >= ReplyHeaderLen(v) ==> plain == plain[..ReplyHeaderLen(v)] + r.value)
    ensures r.Failure? && r.error.CryptoError? ==>
      decrypt(Drop(response, PayloadOffset)) == Failure(r.error.reason)
    ensures CheckStatus(response).Success? && decrypt(Drop(response, PayloadOffset)).Failure? ==>
      r == Failure(CryptoError(decrypt(Drop(response, PayloadOffset)).error))
  {
    match CheckStatus(response)
    case Failure(e) => Failure(e)
    case Success(_) =>
      match decrypt(Drop(response, PayloadOffset))
      case Failure(reason) => Failure(CryptoError(reason))
      case Success(plain) => Success(Drop(plain, ReplyHeaderLen(v)))
  }

  /** `_send_command(command, data)`: frame, exchange, unframe. */
  function SendCommand(v: Variant, transport: Transport, decrypt: Cipher, command: int, data: Bytes)
    : (r: Result<Bytes, Error>)
    ensures r == Failure(PackError) <==> !Packable(v, command, data)
    ensures r.Failure? && r.error.TransportError? ==>
      Packable(v, command, data) &&
      transport(CommandRequest, BuildBody(v, command, data).value) == Failure(r.error.reason)
    ensures r.Success? ==>
      && Packable(v, command, data)
      && var body := BuildBody(v, command, data).value;
      && transport(CommandRequest, body).Success?
      && r == Unframe(v, decrypt, transport(CommandRequest, body).value)
    ensures Packable(v, command, data) ==>
      var body := BuildBody(v, command, data).value;
      match transport(CommandRequest, body)
      case Failure(reason) => r == Failure(TransportError(reason))
      case Success(reply) => r == Unframe(v, decrypt, reply)
  {
    match BuildBody(v, command, data)
    case Failure(e) => Failure(e)
    case Success(body) =>
      match transport(CommandRequest, body)
      case Failure(reason) => Failure(TransportError(reason))
      case Success(response) => Unframe(v, decrypt, response)
  }

  // ---------------------------------------------------------------- sensors

  /** A reading `units / scale`: the device reports tenths (`rm`) or hundredths (`rm4`). */
  datatype Fixed = Fixed(units: nat, scale: nat) {
    /** The reading as a number, when the scale is meaningful. */
    function Value(): real
      requires scale > 0
    {
      units as real / scale as real
    }
  }

  /** The dictionary `check_sensors` returns: humidity is present only on `rm4`. */
  datatype Sensors = Sensors(temperature: Fixed, humidity: Option<Fixed>)

  /** Denominator of the fractional byte of a sensor reading. */
  function SensorScale(v: Variant): nat
  {
    match v
    case GenA => 10
    case GenB => 100
  }

  /** Result bytes the sensor decoder reads. */
  function SensorWidth(v: Variant): nat
  {
    match v
    case GenA => 2
    case GenB => 4
  }

  /**
   * The body of `check_sensors` after the exchange: an integer byte followed
   * by a fraction byte, per field.
   */
  function DecodeSensors(v: Variant, result: Bytes): (r: Result<Sensors, Error>)
    ensures r.Success? <==> |result| >= SensorWidth(v)
    ensures r.Failure? ==> r.error == IndexError
    ensures r.Success? ==>
      && r.value.temperature.scale == SensorScale(v)
      && r.value.temperature.Value() == result[0] as real + result[1] as real / SensorScale(v) as real
      && (r.value.humidity.Some? <==> v == GenB)
      && (v == GenB ==>
            r.value.humidity.value.scale == 100
            && r.value.humidity.value.Value() == result[2] as real + result[3] as real / 100.0)
  {
    if |result| < SensorWidth(v) then Failure(IndexError)
    else
      var scale := SensorScale(v);
      var temperature := Fixed(result[0] as int * scale + result[1] as int, scale);
      match v
      case GenA => Success(Sensors(temperature, None))
      case GenB => Success(Sensors(temperature, Some(Fixed(result[2] as int * 100 + result[3] as int, 100))))
  }

  /**
   * How a device reports a reading whose fraction is a single decimal digit
   * (`rm`) or two (`rm4`): the device-side encoder that `DecodeSensors` inverts.
   */
  function EncodeSensors(v: Variant, s: Sensors): (r: Bytes)
    requires WellScaled(v, s)
    ensures |r| == SensorWidth(v)
  {
    var scale := SensorScale(v);
    var t := s.temperature.units;
    match v
    case GenA => [t / scale, t % scale]
    case GenB =>
      var h := s.humidity.value.units;
      [t / scale, t % scale, h / 100, h % 100]
  }

  /** Readings a device of this generation can report in canonical form. */
  predicate WellScaled(v: Variant, s: Sensors)
  {
    && s.temperature.scale == SensorScale(v)
    && s.temperature.units < 0x100 * SensorScale(v)
    && (s.humidity.Some? <==> v == GenB)
    && (s.humidity.Some? ==> s.humidity.value.scale == 100 && s.humidity.value.units < 0x100 * 100)
  }

  // ------------------------------------------------------------- operations

  /** The public methods of `rm` and `rm4` built on `_send_command`. */
  datatype Operation =
    | CheckData
    | SendData(code: Bytes)
    | EnterLearning
    | SweepFrequency
    | CancelSweepFrequency
    | CheckFrequency
    | FindRfPacket
    | CheckSensors
    | CheckTemperature
    | CheckHumidity
  {
    /** Operations that query the sensors and differ between generations. */
    predicate IsSensorQuery()
    {
      CheckSensors? || CheckTemperature? || CheckHumidity?
    }

    /** Operations that answer with a yes/no flag. */
    predicate IsFlagQuery()
    {
      CheckFrequency? || FindRfPacket?
    }
  }

  /** What an operation hands back to its caller. */
  datatype Answer =
    | Raw(bytes: Bytes)
    | Done
    | Flag(yes: bool)
    | Reading(sensors: Sensors)
    | Measure(quantity: Fixed)

  /** `check_humidity` is defined on `rm4` only. */
  predicate Supports(v: Variant, op: Operation)
  {
    !(v == GenA && op.CheckHumidity?)
  }

  /** The command each operation passes to `_send_command`. */
  function Opcode(v: Variant, op: Operation): (r: nat)
    ensures 0 < r < 0x100
    ensures op.IsSensorQuery() <==> r in {0x1, 0x24}
    ensures op.IsSensorQuery() ==> (r == 0x1 <==> v == GenA)
    ensures !op.IsSensorQuery() ==> r in {0x2, 0x3, 0x4, 0x19, 0x1A, 0x1B, 0x1E}
  {
    match op
    case CheckData => 0x4
    case SendData(_) => 0x2
    case EnterLearning => 0x3
    case SweepFrequency => 0x19
    case CancelSweepFrequency => 0x1E
    case CheckFrequency => 0x1A
    case FindRfPacket => 0x1B
    case _ => if v == GenA then 0x1 else 0x24
  }

  /** The data each operation passes to `_send_command`. */
  function Argument(op: Operation): Bytes
  {
    if op.SendData? then op.code else []
  }

  /** How each operation reads the result bytes of its command. */
  function Interpret(v: Variant, op: Operation, result: Bytes): (r: Result<Answer, Error>)
    requires Supports(v, op)
    ensures op.CheckData? ==> r == Success(Raw(result))
    ensures op.IsFlagQuery() ==>
      && (r.Success? <==> |result| > 0)
      && (r.Failure? ==> r.error == IndexError)
      && (r == Success(Flag(true)) <==> |result| > 0 && result[0] == 1)
      && (r == Success(Flag(false)) <==> |result| > 0 && result[0] != 1)
    ensures op.IsSensorQuery() ==> (r.Success? <==> |result| >= SensorWidth(v))
    ensures op.IsSensorQuery() && r.Failure? ==> r.error == IndexError
    ensures op.CheckSensors? && r.Success? ==>
      r.value.Reading? && DecodeSensors(v, result) == Success(r.value.sensors)
    ensures op.CheckTemperature? && r.Success? ==>
      r.value.Measure? && r.value.quantity.scale == SensorScale(v)
      && r.value.quantity.Value() == result[0] as real + result[1] as real / SensorScale(v) as real
    ensures op.CheckHumidity? && r.Success? ==>
      r.value.Measure? && r.value.quantity.scale == 100
      && r.value.quantity.Value() == result[2] as real + result[3] as real / 100.0
    ensures !op.CheckData? && !op.IsFlagQuery() && !op.IsSensorQuery() ==> r == Success(Done)
  {
    match op
    case CheckData => Success(Raw(result))
    case CheckFrequency => if |result| == 0 then Failure(IndexError) else Success(Flag(result[0] == 1))
    case FindRfPacket => if |result| == 0 then Failure(IndexError) else Success(Flag(result[0] == 1))
    case CheckSensors =>
      (match DecodeSensors(v, result)
       case Failure(e) => Failure(e)
       case Success(s) => Success(Reading(s)))
    case CheckTemperature =>
      (match DecodeSensors(v, result)
       case Failure(e) => Failure(e)
       case Success(s) => Success(Measure(s.temperature)))
    case CheckHumidity =>
      (match DecodeSensors(v, result)
       case Failure(e) => Failure(e)
       case Success(s) => Success(Measure(s.humidity.value)))
    case _ => Success(Done)
  }

  /** Calling an operation on a device of generation `v`. */
  function Perform(v: Variant, transport: Transport, decrypt: Cipher, op: Operation): (r: Result<Answer, Error>)
    ensures r == Failure(NoSuchOperation) <==> v == GenA && op.CheckHumidity?
    ensures r.Success? ==>
      && SendCommand(v, transport, decrypt, Opcode(v, op), Argument(op)).Success?
      && r == Interpret(v, op, SendCommand(v, transport, decrypt, Opcode(v, op), Argument(op)).value)
    ensures Supports(v, op) && SendCommand(v, transport, decrypt, Opcode(v, op), Argument(op)).Failure? ==>
      r == Failure(SendCommand(v, transport, decrypt, Opcode(v, op), Argument(op)).error)
    ensures Supports(v, op) && SendCommand(v, transport, decrypt, Opcode(v, op), Argument(op)).Success? ==>
      r == Interpret(v, op, SendCommand(v, transport, decrypt, Opcode(v, op), Argument(op)).value)
  {
    if !Supports(v, op) then Failure(NoSuchOperation)
    else
      match SendCommand(v, transport, decrypt, Opcode(v, op), Argument(op))
      case Failure(e) => Failure(e)
      case Success(result) => Interpret(v, op, result)
  }
}
