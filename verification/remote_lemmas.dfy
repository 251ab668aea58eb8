/**
 * Properties relating the operations of the `Remote` codec to each other and
 * to their inverses: framing against parsing, the status gate against the
 * cipher, the opcode table across generations, sensor decoding against the
 * device's encoding.
 */
module RemoteProofs {
  import opened Results
  import opened Bytes
  import opened Remote

  // ---------------------------------------------------------------- framing

  /** The device reads back exactly the command and data that were framed. */
  lemma ParseBuild(v: Variant, command: int, data: Bytes)
    requires Packable(v, command, data)
    ensures ParseBody(v, BuildBody(v, command, data).value) == Some((command as nat, data))
  {
  }

  /** Every body the device accepts is the framing of what it reads from it. */
  lemma {:induction false} BuildParse(v: Variant, body: Bytes)
    requires ParseBody(v, body).Some?
    ensures var (command, data) := ParseBody(v, body).value;
      && Packable(v, command, data)
      && BuildBody(v, command, data) == Success(body)
  {
    var (command, data) := ParseBody(v, body).value;
    var h := FrameLen(v);
    Pow256Widths();
    EncodeDecode(body[h - 4 .. h]);
    assert Le32(command) == body[h - 4 .. h];
    match v
    case GenA =>
      assert body == body[..4] + body[4..];
    case GenB =>
      assert DecodeLe(body[..2]) == |data| + 4;
      EncodeDecode(body[..2]);
      assert Le16(|data| + 4) == body[..2];
      assert body == body[..2] + body[2..6] + body[6..];
  }

  /** Framing is injective: distinct requests never share a packet body. */
  lemma BuildInjective(v: Variant, c1: int, d1: Bytes, c2: int, d2: Bytes)
    requires Packable(v, c1, d1) && Packable(v, c2, d2)
    requires BuildBody(v, c1, d1) == BuildBody(v, c2, d2)
    ensures c1 == c2 && d1 == d2
  {
    ParseBuild(v, c1, d1);
    ParseBuild(v, c2, d2);
  }

  // -------------------------------------------------------------- unframing

  /**
   * A non-zero status fails the command with that status, whatever the cipher
   * would have done: decryption is never reached.
   */
  lemma StatusGate(v: Variant, transport: Transport, d1: Cipher, d2: Cipher,
                   command: int, data: Bytes, response: Bytes)
    requires Packable(v, command, data)
    requires transport(CommandRequest, BuildBody(v, command, data).value) == Success(response)
    requires |response| >= StatusOffset + 2
    requires response[StatusOffset] != 0 || response[StatusOffset + 1] != 0
    ensures var code := response[StatusOffset] as int + 0x100 * response[StatusOffset + 1] as int;
      && SendCommand(v, transport, d1, command, data) == Failure(DeviceError(code))
      && SendCommand(v, transport, d2, command, data) == Failure(DeviceError(code))
  {
  }

  /** With a zero status the result is the decrypted payload minus the generation's header. */
  lemma ZeroStatusUnframes(v: Variant, transport: Transport, decrypt: Cipher,
                           command: int, data: Bytes, response: Bytes, plain: Bytes)
    requires Packable(v, command, data)
    requires transport(CommandRequest, BuildBody(v, command, data).value) == Success(response)
    requires |response| >= StatusOffset + 2
    requires response[StatusOffset] == 0 && response[StatusOffset + 1] == 0
    requires decrypt(Drop(response, PayloadOffset)) == Success(plain)
    ensures SendCommand(v, transport, decrypt, command, data) == Success(Drop(plain, ReplyHeaderLen(v)))
  {
  }

  /**
   * The cipher matters only once the status has been accepted: any failure
   * other than a decryption failure is the same for every cipher.
   */
  lemma CipherOnlyAfterStatus(v: Variant, transport: Transport, d1: Cipher, d2: Cipher,
                              command: int, data: Bytes)
    requires SendCommand(v, transport, d1, command, data).Failure?
    requires !SendCommand(v, transport, d1, command, data).error.CryptoError?
    ensures SendCommand(v, transport, d2, command, data) == SendCommand(v, transport, d1, command, data)
  {
  }

  /** The transport is consulted once, on the framed body under request type 0x6A, and on nothing else. */
  lemma OnlyTheBodyIsSent(v: Variant, t1: Transport, t2: Transport, decrypt: Cipher, op: Operation)
    requires Packable(v, Opcode(v, op), Argument(op))
    requires var body := BuildBody(v, Opcode(v, op), Argument(op)).value;
      t1(CommandRequest, body) == t2(CommandRequest, body)
    ensures Perform(v, t1, decrypt, op) == Perform(v, t2, decrypt, op)
  {
  }

  // ------------------------------------------------------------- operations

  /** `rm4` inherits every opcode of `rm` except the sensor query. */
  lemma InheritedOpcodes(op: Operation)
    ensures Opcode(GenA, op) == Opcode(GenB, op) <==> !op.IsSensorQuery()
  {
  }

  /**
   * Within one generation, two operations send the same command exactly when
   * both read the sensors, both send a code, or they are the same operation.
   */
  lemma OpcodesDistinguish(v: Variant, a: Operation, b: Operation)
    ensures Opcode(v, a) == Opcode(v, b) <==>
      (a.IsSensorQuery() && b.IsSensorQuery()) || (a.SendData? && b.SendData?) || a == b
  {
  }

  /**
   * Every operation's request packs, except a code too long for the 16-bit
   * length field of an `rm4` body.
   */
  lemma RequestPackable(v: Variant, op: Operation)
    ensures Packable(v, Opcode(v, op), Argument(op)) <==>
      !(v == GenB && op.SendData? && |op.code| + 4 >= 0x1_0000)
  {
  }

  /** The device reads back each operation's command and data from its request. */
  lemma RequestCarriesOperation(v: Variant, op: Operation)
    requires Packable(v, Opcode(v, op), Argument(op))
    ensures ParseBody(v, BuildBody(v, Opcode(v, op), Argument(op)).value) == Some((Opcode(v, op), Argument(op)))
  {
    ParseBuild(v, Opcode(v, op), Argument(op));
  }

  /** `check_frequency` and `find_rf_packet` answer true exactly when the first result byte is 1. */
  lemma FlagIsFirstByte(v: Variant, transport: Transport, decrypt: Cipher, op: Operation, result: Bytes)
    requires op.IsFlagQuery()
    requires SendCommand(v, transport, decrypt, Opcode(v, op), []) == Success(result)
    ensures |result| == 0 ==> Perform(v, transport, decrypt, op) == Failure(IndexError)
    ensures Perform(v, transport, decrypt, op) == Success(Flag(true)) <==> |result| > 0 && result[0] == 1
    ensures Perform(v, transport, decrypt, op) == Success(Flag(false)) <==> |result| > 0 && result[0] != 1
  {
  }

  // ---------------------------------------------------------------- sensors

  /** Decoding recovers every reading a device reports in canonical form. */
  lemma SensorsRoundTrip(v: Variant, s: Sensors)
    requires WellScaled(v, s)
    ensures DecodeSensors(v, EncodeSensors(v, s)) == Success(s)
  {
  }

  /** `check_temperature` is the temperature field of `check_sensors`, with the same failures. */
  lemma TemperatureProjects(v: Variant, transport: Transport, decrypt: Cipher)
    ensures var all := Perform(v, transport, decrypt, CheckSensors);
      var one := Perform(v, transport, decrypt, CheckTemperature);
      && (all.Failure? <==> one.Failure?)
      && (all.Failure? ==> one.error == all.error)
      && (all.Success? ==> one == Success(Measure(all.value.sensors.temperature)))
  {
    var opcode := Opcode(v, CheckSensors);
    assert Opcode(v, CheckTemperature) == opcode;
    var result := SendCommand(v, transport, decrypt, opcode, []);
    if result.Success? {
      assert Perform(v, transport, decrypt, CheckSensors) == Interpret(v, CheckSensors, result.value);
      assert Perform(v, transport, decrypt, CheckTemperature) == Interpret(v, CheckTemperature, result.value);
    }
  }

  /** `check_humidity` is the humidity field of an `rm4`'s `check_sensors`, with the same failures. */
  lemma HumidityProjects(transport: Transport, decrypt: Cipher)
    ensures var all := Perform(GenB, transport, decrypt, CheckSensors);
      var one := Perform(GenB, transport, decrypt, CheckHumidity);
      && (all.Failure? <==> one.Failure?)
      && (all.Failure? ==> one.error == all.error)
      && (all.Success? ==>
            all.value.sensors.humidity.Some? && one == Success(Measure(all.value.sensors.humidity.value)))
  {
    var result := SendCommand(GenB, transport, decrypt, 0x24, []);
    assert Opcode(GenB, CheckSensors) == 0x24 && Opcode(GenB, CheckHumidity) == 0x24;
    if result.Success? {
      var decoded := DecodeSensors(GenB, result.value);
      assert Perform(GenB, transport, decrypt, CheckSensors) == Interpret(GenB, CheckSensors, result.value);
      assert Perform(GenB, transport, decrypt, CheckHumidity) == Interpret(GenB, CheckHumidity, result.value);
    }
  }
}
