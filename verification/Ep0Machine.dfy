/** The endpoint-0 state machine of gadget/bcm63xx_udc.c as a transition system.  A step is
    one region that runs under the driver's lock: the part of a worker round up to the
    point where it drops the lock for a gadget callback, the part after that callback
    returns, an interrupt handler, or a call from the gadget layer.  Steps of the hardware
    and the host interleave with them in any order. */
module Ep0Machine {
  import opened Basics
  import opened Iudma

  const MAX_CTRL_PKT: nat := 64
  const SETUP_SIZE: nat := 8       // sizeof(struct usb_ctrlrequest)

  datatype Ep0State =
    | Requeue | Idle | InDataSetup | InDataComplete | OutDataSetup | OutDataComplete
    | OutStatus | InFakeStatus | Shutdown

  // What udc->ep0_request points to: nothing, ep0_ctrl_req, or the same request as
  // udc->ep0_reply.
  datatype Target = NoReq | CtrlReq | ReplyReq

  // Where the worker is: between rounds, or in a callback with the lock dropped.
  datatype Pc =
    | AtTop
    | InSetup       // ->setup for a packet from the host
    | InSpoof       // ->setup for a spoofed SET_CONFIGURATION or SET_INTERFACE
    | InNukeIdle    // ->complete of a reply nuked in EP0_IDLE
    | InNukeData    // ->complete of a reply nuked in a data phase
    | InFakeDone    // ->complete of a reply in EP0_IN_FAKE_STATUS_PHASE

  datatype Udc = Udc(
    state: Ep0State, reset: bool, setCfg: bool, setIface: bool, shutdown: bool, completed: bool,
    reply: Option<Req>, target: Target, ctrl: Req, rx: Chan, tx: Chan, pc: Pc)

  datatype Event =
    | Worker                                          // begin a round
    | Return(rc: int, wLength: nat, dirIn: bool)      // the callback returns
    | UsbReset | SetConfiguration | SetInterface      // bcm63xx_udc_ctrl_isr
    | QueueReply(req: Req)                            // bcm63xx_udc_queue on ep0
    | PullupOff | PullupOn                            // bcm63xx_udc_pullup
    | Hardware(isTx: bool, k: nat, bytes: nat)        // the DMA engine
    | DataIsr(isTx: bool)                             // bcm63xx_udc_data_isr on an ep0 channel

  // Result of a step.  Bug stands for BUG_ON and for following a null request pointer.
  datatype Outcome = Ok(udc: Udc) | Bug

  // Result of the first part of a round: it finished, with or without having done
  // something, or it is in a callback.
  datatype RoundResult = Finished(udc: Udc, work: bool) | Called(udc: Udc) | RoundBug

  // ---- The parts of a round

  function Channel(u: Udc, isTx: bool): Chan { if isTx then u.tx else u.rx }

  function WithChannel(u: Udc, isTx: bool, ch: Chan): Udc {
    if isTx then u.(tx := ch) else u.(rx := ch)
  }

  // The request that ep0_request points to.
  function Current(u: Udc): Req {
    if u.target == ReplyReq && u.reply.Some? then u.reply.value else u.ctrl
  }

  function WithCurrent(u: Udc, r: Req): Udc {
    if u.target == ReplyReq && u.reply.Some? then u.(reply := Some(r)) else u.(ctrl := r)
  }

  // bcm63xx_ep0_map_write
  function MapWrite(u: Udc, isTx: bool, who: Target, r: Req): Outcome {
    var ch, s := Channel(u, isTx), r.(actual := 0, offset := 0);
    if u.target != NoReq || !CanWrite(ch, s) then Bug
    else Ok(WithCurrent(WithChannel(u.(target := who), isTx, Written(ch, s)), Submitted(ch, s)))
  }

  // bcm63xx_ep0_internal_request
  function Internal(u: Udc, isTx: bool, length: nat): Outcome {
    MapWrite(u, isTx, CtrlReq, u.ctrl.(length := length))
  }

  // bcm63xx_ep0_read_complete
  function ReadComplete(u: Udc): Outcome {
    if u.target == NoReq then Bug else Ok(u.(completed := false, target := NoReq))
  }

  // bcm63xx_ep0_nuke_reply, up to the completion callback
  function NukeReply(u: Udc): Outcome {
    if u.reply.None? then Bug
    else if u.target == ReplyReq then Ok(u.(reply := None, completed := false, target := NoReq))
    else Ok(u.(reply := None))
  }

  // A round that ends in state next.
  function Moved(o: Outcome, next: Ep0State): RoundResult {
    match o
    case Ok(u) => Finished(u.(state := next), true)
    case Bug => RoundBug
  }

  // A round that drops the lock.
  function Calls(o: Outcome, pc: Pc): RoundResult {
    match o
    case Ok(u) => Called(u.(pc := pc))
    case Bug => RoundBug
  }

  // bcm63xx_ep0_do_setup, up to the setup callback
  function DoSetup(u: Udc): RoundResult {
    var rc := Current(u).actual;
    if rc == 0 || rc != SETUP_SIZE then Moved(ReadComplete(u), Requeue)
    else Calls(ReadComplete(u), InSetup)
  }

  // bcm63xx_ep0_do_idle
  function DoIdle(u: Udc): RoundResult {
    if u.reset then Finished(u.(reset := false), true)
    else if u.setCfg then Called(u.(setCfg := false, pc := InSpoof))
    else if u.setIface then Called(u.(setIface := false, pc := InSpoof))
    else if u.completed then DoSetup(u)
    else if u.shutdown then
      Finished(u.(shutdown := false, completed := false, target := NoReq, rx := ResetChan(u.rx),
                  state := Shutdown), true)
    else if u.reply.Some? then Calls(NukeReply(u), InNukeIdle)
    else Finished(u, false)
  }

  // A reset or a shutdown request cuts a transfer short.
  predicate Stops(u: Udc) { u.reset || u.shutdown }

  // EP0_IN_DATA_PHASE_SETUP and EP0_OUT_DATA_PHASE_SETUP
  function SetupRound(u: Udc, isTx: bool): RoundResult {
    if u.reply.Some? then
      Moved(MapWrite(u, isTx, ReplyReq, u.reply.value), if isTx then InDataComplete else OutDataComplete)
    else if Stops(u) then Finished(u.(state := Requeue), true)
    else Finished(u, false)
  }

  // EP0_IN_DATA_PHASE_COMPLETE
  function InDataRound(u: Udc): RoundResult {
    if u.completed then Moved(DropReply(ReadComplete(u)), Requeue)
    else if Stops(u) then Calls(NukeReply(u.(tx := ResetChan(u.tx))), InNukeData)
    else Finished(u, false)
  }

  // EP0_OUT_DATA_PHASE_COMPLETE
  function OutDataRound(u: Udc): RoundResult {
    if u.completed then Moved(Acknowledge(DropReply(ReadComplete(u))), OutStatus)
    else if Stops(u) then Calls(NukeReply(u.(rx := ResetChan(u.rx))), InNukeData)
    else Finished(u, false)
  }

  // EP0_OUT_STATUS_PHASE
  function StatusRound(u: Udc): RoundResult {
    if u.completed then Moved(ReadComplete(u), Requeue)
    else if Stops(u) then Finished(u.(tx := ResetChan(u.tx), target := NoReq, state := Requeue), true)
    else Finished(u, false)
  }

  // EP0_IN_FAKE_STATUS_PHASE
  function FakeRound(u: Udc): RoundResult {
    if u.reply.Some? then Called(u.(pc := InFakeDone))
    else if Stops(u) then Finished(u.(state := Idle), true)
    else Finished(u, false)
  }

  // bcm63xx_ep0_one_round, up to a callback if it makes one
  function Round(u: Udc): RoundResult {
    match u.state
    case Requeue => Moved(Internal(u, false, MAX_CTRL_PKT), Idle)
    case Idle => DoIdle(u)
    case InDataSetup => SetupRound(u, true)
    case InDataComplete => InDataRound(u)
    case OutDataSetup => SetupRound(u, false)
    case OutDataComplete => OutDataRound(u)
    case OutStatus => StatusRound(u)
    case InFakeStatus => FakeRound(u)
    case Shutdown => Finished(u, false)
  }

  function DropReply(o: Outcome): Outcome {
    match o
    case Ok(u) => Ok(u.(reply := None))
    case Bug => Bug
  }

  // The zero-length status packet after an OUT data phase.
  function Acknowledge(o: Outcome): Outcome {
    match o
    case Ok(u) => Internal(u, true, 0)
    case Bug => Bug
  }

  // The rest of a round once its callback has returned.
  function Resume(u: Udc, rc: int, wLength: nat, dirIn: bool): Udc {
    var v := u.(pc := AtTop);
    match u.pc
    case AtTop => u
    case InSetup =>
      v.(state := if rc < 0 || wLength == 0 then Requeue else if dirIn then InDataSetup else OutDataSetup)
    case InSpoof => if rc >= 0 then v.(state := InFakeStatus) else v
    case InNukeIdle => v
    case InNukeData => v.(state := Requeue)
    case InFakeDone => v.(reply := None, state := Idle)
  }

  // bcm63xx_udc_data_isr on an ep0 channel
  function Interrupted(u: Udc, isTx: bool): Outcome {
    var ch := Channel(u, isTx);
    if !Window(ch) then Bug
    else
      var rc := ReadResult(ch);
      if rc < 0 then Ok(u)
      else if u.target == NoReq then Bug
      else
        var r, v := Current(u), WithChannel(u, isTx, Reaped(ch));
        if Ends(r, rc) then Ok(WithCurrent(v.(completed := true), Ended(r, rc)))
        else
          var s := Continued(r, rc);
          if !CanWrite(Reaped(ch), s) then Bug
          else Ok(WithCurrent(WithChannel(v, isTx, Written(Reaped(ch), s)), Submitted(Reaped(ch), s)))
  }

  function Step(u: Udc, e: Event): Outcome {
    match e
    case Worker =>
      if u.pc != AtTop then Ok(u)
      else (match Round(u)
            case Finished(v, _) => Ok(v)
            case Called(v) => Ok(v)
            case RoundBug => Bug)
    case Return(rc, wLength, dirIn) => Ok(Resume(u, rc, wLength, dirIn))
    case UsbReset => Ok(u.(reset := true))
    case SetConfiguration => Ok(u.(setCfg := true))
    case SetInterface => Ok(u.(setIface := true))
    case QueueReply(r) => if u.reply.Some? then Ok(u) else Ok(u.(reply := Some(r.(actual := 0, offset := 0))))
    case PullupOff => if u.state == Shutdown then Ok(u) else Ok(u.(shutdown := true))
    case PullupOn => if u.state == Shutdown then Ok(u.(state := Requeue)) else Ok(u)
    case Hardware(isTx, k, bytes) =>
      var ch := Channel(u, isTx);
      if HwCan(ch, k, bytes) then Ok(WithChannel(u, isTx, HwDone(ch, k, bytes))) else Ok(u)
    case DataIsr(isTx) => Interrupted(u, isTx)
  }

  function Run(u: Udc, es: seq<Event>): Outcome
    decreases |es|
  {
    if es == [] then Ok(u)
    else match Step(u, es[0])
      case Ok(v) => Run(v, es[1..])
      case Bug => Bug
  }

  // ---- The invariant

  // What must be in flight: which request, and on which channel.
  datatype Flight = Nothing | Flying(who: Target, isTx: bool)

  function Expected(u: Udc): Flight {
    match u.pc
    case InSetup => Nothing
    case InNukeData => Nothing
    case InSpoof => Flying(CtrlReq, false)
    case InNukeIdle => Flying(CtrlReq, false)
    case InFakeDone => Flying(CtrlReq, false)
    case AtTop =>
      match u.state
      case Idle => Flying(CtrlReq, false)
      case InFakeStatus => Flying(CtrlReq, false)
      case InDataComplete => Flying(ReplyReq, true)
      case OutDataComplete => Flying(ReplyReq, false)
      case OutStatus => Flying(CtrlReq, true)
      case _ => Nothing
  }

  // The callbacks occur in the states they belong to.
  predicate PcFits(u: Udc) {
    match u.pc
    case AtTop => true
    case InSetup => u.state == Idle
    case InSpoof => u.state == Idle
    case InNukeIdle => u.state == Idle
    case InNukeData => u.state == InDataComplete || u.state == OutDataComplete
    case InFakeDone => u.state == InFakeStatus && u.reply.Some?
  }

  ghost predicate FlightFits(u: Udc) {
    match Expected(u)
    case Nothing => u.target == NoReq && !u.completed && u.rx.used == 0 && u.tx.used == 0
    case Flying(who, isTx) =>
      && u.target == who && (who == ReplyReq ==> u.reply.Some?)
      && Channel(u, !isTx).used == 0
      && if u.completed then Channel(u, isTx).used == 0 else InFlight(Channel(u, isTx), Current(u))
  }

  ghost predicate Inv(u: Udc) {
    && ChanOk(u.rx) && !u.rx.isTx && ChanOk(u.tx) && u.tx.isTx
    && PcFits(u) && FlightFits(u)
    && (u.state == Shutdown ==> !u.shutdown)
  }
}
