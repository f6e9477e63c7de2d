/** The byte layout of the three application frames (can_protocol.hpp). */
module CanProtocol {
  import opened Basics

  type byte = x: int | 0 <= x < 0x100
  type uint16 = x: int | 0 <= x < 0x1_0000
  type int16 = x: int | -0x8000 <= x < 0x8000
  type uint32 = x: int | 0 <= x < 0x1_0000_0000
  type int32 = x: int | -0x8000_0000 <= x < 0x8000_0000
  type FrameData = s: seq<byte> | |s| == 8 witness [0, 0, 0, 0, 0, 0, 0, 0]

  const INT16_MIN := -0x8000
  const INT16_MAX := 0x7fff
  const INT32_MIN := -0x8000_0000
  const INT32_MAX := 0x7fff_ffff
  const FRAME_BYTES := 8

  datatype Command = Command(sequence: byte, enabled: bool, velocity: int16, watchdogMs: uint16)
  datatype Feedback = Feedback(sequence: byte, status: byte, velocity: int16, encoderCount: int32)
  datatype Ack = Ack(sequence: byte, result: byte)

  /** What a SocketCAN receiver can hand over; an error frame carries its class in its identifier. */
  datatype CanFrame =
    | Data(id: nat, dlc: nat, data: FrameData)
    | Error(mask: bv32)
    | Remote(id: nat)

  /** One call of a receiver: a frame and the clock when it is handled, a timeout, or an exception. */
  datatype Reception = Received(frame: CanFrame, at: int) | Timeout | Failure

  function CommandId(node: byte): nat { 0x100 + node }
  function FeedbackId(node: byte): nat { 0x180 + node }
  function AckId(node: byte): nat { 0x280 + node }

  function CommandFrame(nodes: Pair<byte>, i: nat, data: FrameData): CanFrame
    requires i < 2
  {
    Data(CommandId(nodes.At(i)), FRAME_BYTES, data)
  }

  function AckFrame(nodes: Pair<byte>, i: nat, ack: Ack): CanFrame
    requires i < 2
  {
    Data(AckId(nodes.At(i)), FRAME_BYTES, EncodeAck(ack))
  }

  function FeedbackFrame(nodes: Pair<byte>, i: nat, f: Feedback, dlc: nat): CanFrame
    requires i < 2
  {
    Data(FeedbackId(nodes.At(i)), dlc, EncodeFeedback(f))
  }

  /** The node identifiers that both programs accept at start-up. */
  predicate ValidNodes(nodes: Pair<byte>) {
    1 <= nodes.left <= 127 && 1 <= nodes.right <= 127 && nodes.left != nodes.right
  }

  // Two's complement and little-endian bytes. The source joins bytes with `|`; the shifted
  // bytes occupy disjoint bits, so the join is written as a sum.

  function ToU16(v: int16): uint16 { if v < 0 then v + 0x1_0000 else v }
  function FromU16(u: uint16): int16 { if u < 0x8000 then u else u - 0x1_0000 }
  function ToU32(v: int32): uint32 { if v < 0 then v + 0x1_0000_0000 else v }
  function FromU32(u: uint32): int32 { if u < 0x8000_0000 then u else u - 0x1_0000_0000 }

  /** `8 * k` bits as a factor. */
  function Scale(k: nat): (s: nat)
    requires k < 4
    ensures s > 0
  {
    if k == 0 then 1 else if k == 1 then 0x100 else if k == 2 then 0x1_0000 else 0x100_0000
  }

  function ByteOf(raw: uint32, k: nat): byte
    requires k < 4
  {
    (raw / Scale(k)) % 0x100
  }

  function Word(low: int, high: int): int {
    low + 0x100 * high
  }

  function U16At(data: seq<byte>, offset: nat): uint16
    requires offset + 2 <= |data|
  {
    Word(data[offset], data[offset + 1])
  }

  function U32At(data: seq<byte>, offset: nat): uint32
    requires offset + 4 <= |data|
  {
    Word(data[offset], data[offset + 1]) + 0x1_0000 * Word(data[offset + 2], data[offset + 3])
  }

  function EncodeCommand(sequence: byte, enabled: bool, velocity: int, watchdogMs: uint16): FrameData {
    var v := ToU16(ClampInt(velocity, INT16_MIN, INT16_MAX));
    [sequence, if enabled then 1 else 0,
     ByteOf(v, 0), ByteOf(v, 1), ByteOf(watchdogMs, 0), ByteOf(watchdogMs, 1), 0, 0]
  }

  function DecodeCommand(data: FrameData, dlc: nat): Option<Command> {
    if dlc != FRAME_BYTES || data[6] != 0 || data[7] != 0 then None
    else Some(Command(data[0], data[1] % 2 != 0, FromU16(U16At(data, 2)), U16At(data, 4)))
  }

  function EncodeFeedback(f: Feedback): FrameData {
    var v := ToU16(f.velocity);
    var n := ToU32(f.encoderCount);
    [f.sequence, f.status, ByteOf(v, 0), ByteOf(v, 1),
     ByteOf(n, 0), ByteOf(n, 1), ByteOf(n, 2), ByteOf(n, 3)]
  }

  function DecodeFeedback(data: FrameData, dlc: nat): Option<Feedback> {
    if dlc != FRAME_BYTES then None
    else Some(Feedback(data[0], data[1], FromU16(U16At(data, 2)), FromU32(U32At(data, 4))))
  }

  function EncodeAck(a: Ack): FrameData {
    [a.sequence, a.result, 0, 0, 0, 0, 0, 0]
  }

  function DecodeAck(data: FrameData, dlc: nat): Option<Ack> {
    if dlc != FRAME_BYTES || exists k :: 2 <= k < 8 && data[k] != 0 then None
    else Some(Ack(data[0], data[1]))
  }

  // ---- The wire format -----------------------------------------------------------------------

  /** Identifiers and byte positions: values little-endian and modulo their width, unused bytes zero. */
  lemma CommandLayout(nodes: Pair<byte>, i: nat, sequence: byte, enabled: bool, velocity: int16, watchdogMs: uint16)
    requires i < 2
    ensures var frame := CommandFrame(nodes, i, EncodeCommand(sequence, enabled, velocity, watchdogMs));
      var b := frame.data;
      && frame.id == 0x100 + nodes.At(i) && frame.dlc == 8
      && b[0] == sequence && b[1] == (if enabled then 1 else 0)
      && (b[2] as int + 0x100 * b[3] as int - velocity as int) % 0x1_0000 == 0
      && b[4] as int + 0x100 * b[5] as int == watchdogMs
      && b[6] == 0 && b[7] == 0
  {
    hide ByteOf;
    U16RoundTrip(ToU16(velocity));
    U16RoundTrip(watchdogMs);
  }

  lemma FeedbackLayout(nodes: Pair<byte>, i: nat, f: Feedback, dlc: nat)
    requires i < 2
    ensures var frame := FeedbackFrame(nodes, i, f, dlc);
      var b := frame.data;
      && frame.id == 0x180 + nodes.At(i) && frame.dlc == dlc && b[0] == f.sequence && b[1] == f.status
      && (b[2] as int + 0x100 * b[3] as int - f.velocity as int) % 0x1_0000 == 0
      && (b[4] as int + 0x100 * b[5] as int + 0x1_0000 * b[6] as int + 0x100_0000 * b[7] as int
          - f.encoderCount as int) % 0x1_0000_0000 == 0
  {
    hide ByteOf;
    U16RoundTrip(ToU16(f.velocity));
    U32RoundTrip(ToU32(f.encoderCount));
  }

  lemma AckLayout(nodes: Pair<byte>, i: nat, a: Ack)
    requires i < 2
    ensures AckFrame(nodes, i, a) == Data(0x280 + nodes.At(i), 8, [a.sequence, a.result, 0, 0, 0, 0, 0, 0])
  {
  }

  // ---- Round trips -------------------------------------------------------------------------

  lemma U16RoundTrip(u: uint16)
    ensures ByteOf(u, 0) + 0x100 * ByteOf(u, 1) == u
  {
  }

  lemma I16RoundTrip(v: int16)
    ensures FromU16(Word(ByteOf(ToU16(v), 0), ByteOf(ToU16(v), 1))) == v
  {
    U16RoundTrip(ToU16(v));
  }

  /** Shifting by one byte twice is shifting by two. */
  lemma ShiftTwice(u: nat)
    ensures u / 0x1_0000 == u / 0x100 / 0x100
  {
    var a, r := u / 0x100, u % 0x100;
    var b, q := a / 0x100, a % 0x100;
    assert u == 0x1_0000 * b + (0x100 * q + r);
  }

  lemma U32RoundTrip(u: uint32)
    ensures ByteOf(u, 0) + 0x100 * ByteOf(u, 1) + 0x1_0000 * ByteOf(u, 2) + 0x100_0000 * ByteOf(u, 3) == u
  {
    var a, b, c := u / 0x100, u / 0x1_0000, u / 0x100_0000;
    ShiftTwice(u);
    ShiftTwice(a);
    assert c == b / 0x100;
    assert u == 0x100 * a + u % 0x100 && a == 0x100 * b + a % 0x100 && b == 0x100 * c + b % 0x100;
  }

  lemma U16Bytes(b0: byte, b1: byte)
    ensures var u := Word(b0, b1); ByteOf(u, 0) == b0 && ByteOf(u, 1) == b1
    ensures ToU16(FromU16(Word(b0, b1))) == Word(b0, b1)
  {
  }

  lemma U32Bytes(b0: byte, b1: byte, b2: byte, b3: byte)
    ensures var u := b0 + 0x100 * b1 + 0x1_0000 * b2 + 0x100_0000 * b3;
      ByteOf(u, 0) == b0 && ByteOf(u, 1) == b1 && ByteOf(u, 2) == b2 && ByteOf(u, 3) == b3
  {
    var u := b0 + 0x100 * b1 + 0x1_0000 * b2 + 0x100_0000 * b3;
    assert u / 0x100 == b1 + 0x100 * b2 + 0x1_0000 * b3;
    assert u / 0x1_0000 == b2 + 0x100 * b3;
    assert u / 0x100_0000 == b3;
  }

  /** A driver frame always decodes, to the saturated velocity and everything else unchanged. */
  lemma CommandDecodesEncoding(sequence: byte, enabled: bool, velocity: int, watchdogMs: uint16)
    ensures DecodeCommand(EncodeCommand(sequence, enabled, velocity, watchdogMs), 8)
         == Some(Command(sequence, enabled, ClampInt(velocity, INT16_MIN, INT16_MAX), watchdogMs))
  {
    hide ByteOf, ToU16, FromU16;
    I16RoundTrip(ClampInt(velocity, INT16_MIN, INT16_MAX));
    U16RoundTrip(watchdogMs);
  }

  /** Re-encoding a decoded command only clears the unused flag bits. */
  lemma CommandEncodesDecoding(data: FrameData, dlc: nat)
    ensures DecodeCommand(data, dlc).Some? <==> dlc == 8 && data[6] == 0 && data[7] == 0
    ensures match DecodeCommand(data, dlc)
      case None => true
      case Some(c) => EncodeCommand(c.sequence, c.enabled, c.velocity, c.watchdogMs) == data[1 := data[1] % 2]
  {
    U16Bytes(data[2], data[3]);
    U16Bytes(data[4], data[5]);
    if DecodeCommand(data, dlc).Some? {
      var c := DecodeCommand(data, dlc).value;
      assert ToU16(ClampInt(c.velocity, INT16_MIN, INT16_MAX)) == Word(data[2], data[3]);
      assert EncodeCommand(c.sequence, c.enabled, c.velocity, c.watchdogMs)
          == [data[0], data[1] % 2, data[2], data[3], data[4], data[5], 0, 0];
    }
  }

  /** Feedback encoding and decoding are mutually inverse on full-length frames. */
  lemma FeedbackRoundTrip(f: Feedback, data: FrameData)
    ensures DecodeFeedback(EncodeFeedback(f), 8) == Some(f)
    ensures DecodeFeedback(data, 8).Some? && EncodeFeedback(DecodeFeedback(data, 8).value) == data
  {
    I16RoundTrip(f.velocity);
    U32RoundTrip(ToU32(f.encoderCount));
    U16Bytes(data[2], data[3]);
    U32Bytes(data[4], data[5], data[6], data[7]);
  }

  /** ACK encoding and decoding are mutually inverse on the frames that decode. */
  lemma AckRoundTrip(a: Ack, data: FrameData, dlc: nat)
    ensures DecodeAck(EncodeAck(a), 8) == Some(a)
    ensures DecodeAck(data, dlc).Some? ==> dlc == 8 && EncodeAck(DecodeAck(data, dlc).value) == data
  {
    assert DecodeAck(data, dlc).Some? ==> forall k :: 2 <= k < 8 ==> data[k] == 0;
  }

  /** No identifier serves two purposes, so a frame is read as at most one kind for one motor. */
  lemma IdentifiersDisjoint(nodes: Pair<byte>, i: nat, j: nat)
    requires ValidNodes(nodes) && i < 2 && j < 2
    ensures CommandId(nodes.At(i)) < FeedbackId(nodes.At(j)) < AckId(nodes.At(i))
    ensures i != j ==> CommandId(nodes.At(i)) != CommandId(nodes.At(j))
    ensures i != j ==> FeedbackId(nodes.At(i)) != FeedbackId(nodes.At(j)) && AckId(nodes.At(i)) != AckId(nodes.At(j))
  {
  }

  // ---- The source's in-place buffer code ------------------------------------------------------

  method PutU16(data: array<byte>, offset: nat, value: uint16)
    requires offset + 2 <= data.Length
    modifies data
    ensures data[..] == old(data[..])[offset := ByteOf(value, 0)][offset + 1 := ByteOf(value, 1)]
  {
    data[offset] := value % 0x100;
    data[offset + 1] := (value / 0x100) % 0x100;
  }

  method PutI16(data: array<byte>, offset: nat, value: int16)
    requires offset + 2 <= data.Length
    modifies data
    ensures data[..] == old(data[..])[offset := ByteOf(ToU16(value), 0)][offset + 1 := ByteOf(ToU16(value), 1)]
  {
    PutU16(data, offset, ToU16(value));
  }

  method PutI32(data: array<byte>, offset: nat, value: int32)
    requires offset + 4 <= data.Length
    modifies data
    ensures forall k :: 0 <= k < 4 ==> data[offset + k] == ByteOf(ToU32(value), k)
    ensures forall j :: 0 <= j < data.Length && !(offset <= j < offset + 4) ==> data[j] == old(data[j])
  {
    var raw := ToU32(value);
    for index := 0 to 4
      invariant forall k :: 0 <= k < index ==> data[offset + k] == ByteOf(raw, k)
      invariant forall j :: 0 <= j < data.Length && !(offset <= j < offset + index) ==> data[j] == old(data[j])
    {
      data[offset + index] := (raw / Scale(index)) % 0x100;
    }
  }

  /** The partial join of the first `n` bytes. */
  function Joined(data: seq<byte>, offset: nat, n: nat): nat
    requires offset + n <= |data| && n <= 4
  {
    if n == 0 then 0 else Joined(data, offset, n - 1) + data[offset + n - 1] * Scale(n - 1)
  }

  method GetI32(data: seq<byte>, offset: nat) returns (value: int32)
    requires offset + 4 <= |data|
    ensures value == FromU32(U32At(data, offset))
  {
    var raw: nat := 0;
    for index := 0 to 4
      invariant raw == Joined(data, offset, index)
    {
      raw := raw + data[offset + index] * Scale(index);
    }
    assert Joined(data, offset, 2) == Word(data[offset], data[offset + 1]);
    value := FromU32(raw);
  }

  method EncodeCommandFrame(sequence: byte, enabled: bool, velocity: int, watchdogMs: uint16)
    returns (data: array<byte>)
    ensures fresh(data) && data[..] == EncodeCommand(sequence, enabled, velocity, watchdogMs)
  {
    data := new byte[8](_ => 0);
    data[0] := sequence;
    data[1] := if enabled then 1 else 0;
    PutI16(data, 2, ClampInt(velocity, INT16_MIN, INT16_MAX));
    PutU16(data, 4, watchdogMs);
  }

  method EncodeFeedbackFrame(f: Feedback) returns (data: array<byte>)
    ensures fresh(data) && data[..] == EncodeFeedback(f)
  {
    data := new byte[8](_ => 0);
    data[0] := f.sequence;
    data[1] := f.status;
    PutI16(data, 2, f.velocity);
    PutI32(data, 4, f.encoderCount);
    assert forall k :: 0 <= k < 8 ==> data[k] == EncodeFeedback(f)[k] by {
      assert forall k :: 0 <= k < 4 ==> data[4 + k] == ByteOf(ToU32(f.encoderCount), k);
    }
  }

  method DecodeAckFrame(data: FrameData, dlc: nat) returns (ack: Option<Ack>)
    ensures ack == DecodeAck(data, dlc)
  {
    if dlc != |data| {
      return None;
    }
    for index := 2 to |data|
      invariant forall k :: 2 <= k < index ==> data[k] == 0
    {
      if data[index] != 0 {
        return None;
      }
    }
    return Some(Ack(data[0], data[1]));
  }
}
