/** The default control pipe of a device: requests, answers and their three stages (USB 2.0, section 8.5.3). */
module ControlPipe {
  import opened Bytes

  const REQUEST_LENGTH: nat := 8
  const DEVICE_TO_HOST: byte := 0x80

  /** Waiting for a request; sending the answer, which ends with a short packet if it is shorter than asked for; waiting
      for the host's empty packet; about to send an empty packet; or stalling until the next request. */
  datatype Stage =
    | Waiting
    | Answering(rest: seq<byte>, short: bool, toggle: nat)
    | Confirming
    | Reporting
    | Refusing

  /** The answers to the requests the device understands. */
  datatype Pipe = Pipe(packetSize: nat, answers: map<seq<byte>, seq<byte>>, stage: Stage)

  /** How many bytes a request asks for (section 9.3). */
  function Asked(request: seq<byte>): uint16
    requires |request| == REQUEST_LENGTH
  {
    LE16(request[6..8])
  }

  /** A request arrives. It is always taken, whatever the stage. */
  function StageAfter(answers: map<seq<byte>, seq<byte>>, request: seq<byte>): Stage
    requires |request| == REQUEST_LENGTH
  {
    if request !in answers then Refusing
    else if Asked(request) == 0 then Reporting
    else if request[0] < DEVICE_TO_HOST then Refusing
    else if |answers[request]| >= Asked(request) then Answering(answers[request][..Asked(request)], false, 1)
    else Answering(answers[request], true, 1)
  }

  /** The data packet a device in this stage sends. */
  function Piece(rest: seq<byte>, packetSize: nat): (data: seq<byte>)
    ensures |data| <= packetSize && |data| <= |rest|
  {
    if |rest| <= packetSize then rest else rest[..packetSize]
  }

  /** The stage after that packet has been acknowledged. */
  function AfterPiece(stage: Stage, packetSize: nat): Stage
    requires stage.Answering?
  {
    var n := |Piece(stage.rest, packetSize)|;
    if (if stage.short then n < packetSize else n == |stage.rest|) then Confirming
    else Answering(stage.rest[n..], stage.short, if stage.toggle == 0 then 1 else 0)
  }

  datatype PipeReply = Ack(after: Pipe) | Data(toggle: nat, data: seq<byte>, acked: Pipe) | Nak | Stall

  /** The device's side of a SETUP transaction. */
  function TakeRequest(p: Pipe, toggle: nat, request: seq<byte>): PipeReply {
    if toggle != 0 || |request| != REQUEST_LENGTH then Stall else Ack(p.(stage := StageAfter(p.answers, request)))
  }

  /** The host's empty packet ends the transfer. It may come before the device knows that its last data packet has
      arrived, and it may come twice. */
  function TakeStatus(p: Pipe, toggle: nat, data: seq<byte>): PipeReply {
    if toggle != 1 || data != [] || p.stage.Refusing? || p.stage.Reporting? then Stall else Ack(p.(stage := Waiting))
  }

  /** The device's side of an IN transaction. */
  function Give(p: Pipe): PipeReply {
    match p.stage
    case Waiting => Nak
    case Answering(rest, _, toggle) =>
      Data(toggle, Piece(rest, p.packetSize), p.(stage := AfterPiece(p.stage, p.packetSize)))
    case Reporting => Data(1, [], p.(stage := Waiting))
    case _ => Stall
  }
}
