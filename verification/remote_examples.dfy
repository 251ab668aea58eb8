/**
 * Worked exchanges: a device that replies with a fixed buffer and a cipher
 * stub that returns fixed plain text.
 */
module RemoteExamples {
  import opened Results
  import opened Bytes
  import opened Remote

  /** A reply of 0x38 + 8 zero bytes: status 0, eight bytes of cipher text. */
  function QuietReply(): (r: Bytes)
    ensures |r| == PayloadOffset + 8 && CheckStatus(r) == Success(())
  {
    seq(PayloadOffset + 8, _ => 0)
  }

  /** A reply whose status field holds the bytes 0x01 0x00. */
  function FailingReply(): (r: Bytes)
    ensures |r| == PayloadOffset + 8 && CheckStatus(r) == Failure(DeviceError(1))
  {
    seq(PayloadOffset + 8, i => if i == StatusOffset then 1 else 0)
  }

  /** An `rm` whose plain text is 4 header bytes then 21, 5 reads 21.5 degrees. */
  lemma GenATemperature()
    ensures var r := Perform(GenA, (_, _) => Success(QuietReply()), _ => Success([0, 0, 0, 0, 21, 5]), CheckTemperature);
      r == Success(Measure(Fixed(215, 10))) && r.value.quantity.Value() == 21.5
  {
  }

  /** An `rm4` whose plain text is 6 header bytes then 21, 50, 45, 30 reads 21.5 degrees and 45.3 percent. */
  lemma GenBSensors()
    ensures var r := Perform(GenB, (_, _) => Success(QuietReply()),
                             _ => Success([0, 0, 0, 0, 0, 0, 21, 50, 45, 30]), CheckSensors);
      && r == Success(Reading(Sensors(Fixed(2150, 100), Some(Fixed(4530, 100)))))
      && r.value.sensors.temperature.Value() == 21.5
      && r.value.sensors.humidity.value.Value() == 45.3
  {
  }

  /** Status 0x0001 fails every supported operation with code 1, even with a cipher that would fail. */
  lemma DeviceErrorBeforeDecrypt(v: Variant, op: Operation)
    requires Supports(v, op)
    requires Packable(v, Opcode(v, op), Argument(op))
    ensures Perform(v, (_, _) => Success(FailingReply()), _ => Failure("unreachable"), op) == Failure(DeviceError(1))
  {
  }
}
