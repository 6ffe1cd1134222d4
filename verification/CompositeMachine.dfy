/** Configurations and delayed status stages of gadget/composite.c as a state machine:
    SET_CONFIGURATION, SET_INTERFACE, disconnect and usb_composite_setup_continue. */
module CompositeMachine {
  import opened Basics
  import opened TxPackets
  import opened Descriptors
  import opened ConfigDescriptor

  // The value a set_alt callback returns to defer the status stage; any positive value
  // that is no byte count will do.
  const DELAYED_STATUS: int := 0x7fff
  const MAX_CONFIG_INTERFACES: nat := 16

  // A configuration: its value, its functions, and the function of each interface.
  datatype Conf = Conf(value: nat, funcs: seq<nat>, slots: seq<nat>)

  // What the gadget driver has bound: its functions and configurations.
  datatype Bound = Bound(funcs: seq<Function>, confs: seq<Conf>)

  predicate GoodConf(b: Bound, c: Conf) {
    && c.value > 0 && |c.slots| <= MAX_CONFIG_INTERFACES
    && (forall i :: 0 <= i < |c.slots| ==> c.slots[i] in c.funcs)
    && (forall i :: 0 <= i < |c.funcs| ==> c.funcs[i] < |b.funcs|)
  }

  predicate GoodBound(b: Bound) { forall k :: 0 <= k < |b.confs| ==> GoodConf(b, b.confs[k]) }

  datatype Current = Unset | Set(index: nat)

  // The current configuration, the deferrals not yet continued, each function's endpoint
  // bitmap, and the speed of the bus.
  datatype Device = Device(config: Current, delayed: nat, bits: seq<set<nat>>, speed: Speed)

  // ---- Endpoint bitmaps

  const USB_DT_ENDPOINT: Byte := 5

  // Where an endpoint address stands in the bitmap: IN endpoints from 16 on.
  function Bit(address: Byte): nat {
    (if address >= 128 then 16 else 0) + address as nat % 16
  }

  // Endpoint addresses have bits 4 to 6 clear (section 9.6.6 of USB 2.0); then different
  // addresses have different bits, all below 32.
  lemma BitInjective(a: Byte, b: Byte)
    requires a % 128 < 16 && b % 128 < 16
    ensures Bit(a) < 32 && (Bit(a) == Bit(b) <==> a == b)
  {
    assert a == 128 * (a / 128) + a % 128 && b == 128 * (b / 128) + b % 128;
  }

  predicate IsEndpoint(d: Desc) { |d| >= 3 && d[1] == USB_DT_ENDPOINT }

  function Bits(ds: seq<Desc>): set<nat> {
    if ds == [] then {}
    else Bits(ds[..|ds| - 1]) + if IsEndpoint(ds[|ds| - 1]) then {Bit(ds[|ds| - 1][2])} else {}
  }

  // A bit is set exactly when some endpoint descriptor has an address that maps to it.
  lemma {:induction false} BitsExactly(ds: seq<Desc>, b: nat)
    ensures b in Bits(ds) <==> exists k :: 0 <= k < |ds| && IsEndpoint(ds[k]) && Bit(ds[k][2]) == b
  {
    if ds != [] {
      var n := |ds| - 1;
      BitsExactly(ds[..n], b);
      if b in Bits(ds[..n]) {
        var k :| 0 <= k < n && IsEndpoint(ds[..n][k]) && Bit(ds[..n][k][2]) == b;
        assert ds[k] == ds[..n][k];
      }
      assert forall k :: 0 <= k < n ==> ds[..n][k] == ds[k];
    }
  }

  // The function has no descriptors for the speed: its vector is a null pointer.
  predicate Bare(b: Bound, f: nat, speed: Speed) { f < |b.funcs| && ForSpeed(b.funcs[f], speed).Null? }

  function FuncBits(b: Bound, f: nat, speed: Speed): set<nat>
    requires f < |b.funcs|
  {
    Bits(Elements(ForSpeed(b.funcs[f], speed)))
  }

  // ---- reset_config

  function Cleared(bits: seq<set<nat>>, funcs: seq<nat>): (r: seq<set<nat>>)
    ensures |r| == |bits|
    ensures forall f :: 0 <= f < |bits| ==> r[f] == if f in funcs then {} else bits[f]
    decreases |funcs|
  {
    if funcs == [] then bits
    else
      var r := Cleared(bits, funcs[..|funcs| - 1]);
      var f := funcs[|funcs| - 1];
      assert funcs == funcs[..|funcs| - 1] + [f];
      if f < |r| then r[f := {}] else r
  }

  function Reset(b: Bound, d: Device): Device
    requires d.config.Set? ==> d.config.index < |b.confs|
  {
    if d.config.Unset? then d
    else d.(config := Unset, delayed := 0, bits := Cleared(d.bits, b.confs[d.config.index].funcs))
  }

  // ---- set_config

  // The first configuration with a value.
  function Lookup(confs: seq<Conf>, value: nat): (k: nat)
    ensures k <= |confs|
    ensures k < |confs| <==> exists i :: 0 <= i < |confs| && confs[i].value == value
    ensures k < |confs| ==> confs[k].value == value && forall i :: 0 <= i < k ==> confs[i].value != value
  {
    if confs == [] then 0
    else if confs[0].value == value then 0
    else
      var k := Lookup(confs[1..], value);
      assert k < |confs| - 1 ==> confs[k + 1] == confs[1..][k];
      assert forall i :: 0 < i < |confs| ==> confs[i] == confs[1..][i - 1];
      k + 1
  }

  // The function of interface i gets the bits of its endpoints.
  function Claim(b: Bound, d: Device, i: nat): Device
    requires d.config.Set? && d.config.index < |b.confs| && GoodBound(b)
    requires |d.bits| == |b.funcs| && i < |b.confs[d.config.index].slots|
  {
    assert GoodConf(b, b.confs[d.config.index]);
    var f := b.confs[d.config.index].slots[i];
    d.(bits := d.bits[f := d.bits[f] + FuncBits(b, f, d.speed)])
  }

  // What a call comes to: a device and a result, or a null pointer followed.
  datatype Called = Gives(device: Device, result: int) | Fault

  // The loop over the interfaces from i on; answers are what the set_alt callbacks return.
  // It does not ask whether a function has descriptors for the speed.
  function Activate(b: Bound, d: Device, i: nat, result: int, answers: int -> int): Called
    requires d.config.Set? && d.config.index < |b.confs| && GoodBound(b)
    requires |d.bits| == |b.funcs| && i <= |b.confs[d.config.index].slots|
    decreases |b.confs[d.config.index].slots| - i
  {
    var c := b.confs[d.config.index];
    if i == |c.slots| then Gives(d, result)
    else if Bare(b, c.slots[i], d.speed) then Fault
    else
      var d' := Claim(b, d, i);
      var answer := answers(i);
      if answer < 0 then Gives(Reset(b, d'), answer)
      else
        Activate(b, if answer == DELAYED_STATUS then d'.(delayed := d'.delayed + 1) else d', i + 1, answer, answers)
  }

  function SetConfig(b: Bound, d: Device, number: nat, answers: int -> int): Called
    requires GoodBound(b) && Sane(b, d)
  {
    var k := Lookup(b.confs, number);
    if number > 0 && k == |b.confs| then Gives(d, EINVAL)
    else
      var d0 := Reset(b, d);
      if number == 0 then Gives(d0, if d0.delayed > 0 then DELAYED_STATUS else 0)
      else
        match Activate(b, d0.(config := Set(k), delayed := 0), 0, 0, answers)
        case Fault => Fault
        case Gives(d1, result) => Gives(d1, if result >= 0 && d1.delayed > 0 then DELAYED_STATUS else result)
  }

  // ---- The invariant

  ghost predicate Sane(b: Bound, d: Device) {
    && |d.bits| == |b.funcs|
    && (d.config.Set? ==> d.config.index < |b.confs|)
    && (d.config.Unset? ==> d.delayed == 0)
  }

  // A function of the current configuration that has an interface answers for its
  // endpoints at this speed; every other function for none.
  ghost predicate Routed(b: Bound, d: Device)
    requires Sane(b, d)
  {
    forall f :: 0 <= f < |d.bits| ==>
      d.bits[f] == if d.config.Set? && f in b.confs[d.config.index].slots then FuncBits(b, f, d.speed) else {}
  }

  ghost predicate Inv(b: Bound, d: Device) { Sane(b, d) && Routed(b, d) }

  lemma ResetKeeps(b: Bound, d: Device)
    requires GoodBound(b) && Inv(b, d)
    ensures Inv(b, Reset(b, d)) && Reset(b, d).config == Unset && Reset(b, d).speed == d.speed
    ensures Reset(b, d).delayed == 0
    ensures forall f :: 0 <= f < |d.bits| ==> Reset(b, d).bits[f] == {}
  {
    if d.config.Set? {
      assert GoodConf(b, b.confs[d.config.index]);
    }
  }

  // In the middle of the loop: the functions of the first i interfaces have their bits.
  ghost predicate Partly(b: Bound, d: Device, i: nat)
    requires |d.bits| == |b.funcs| && d.config.Set? && d.config.index < |b.confs|
  {
    var c := b.confs[d.config.index];
    && i <= |c.slots|
    && forall f :: 0 <= f < |d.bits| ==> d.bits[f] == if f in c.slots[..i] then FuncBits(b, f, d.speed) else {}
  }

  function Deferrals(answers: int -> int, i: nat, n: nat): nat
    requires i <= n
    decreases n - i
  {
    if i == n then 0 else (if answers(i) == DELAYED_STATUS then 1 else 0) + Deferrals(answers, i + 1, n)
  }

  predicate AllGranted(answers: int -> int, i: nat, n: nat) { forall k :: i <= k < n ==> answers(k) >= 0 }

  // Some interface from i on, reached before any refusal, belongs to a function without
  // descriptors for the speed.
  predicate MeetsBare(b: Bound, c: Conf, speed: Speed, answers: int -> int, i: nat) {
    exists k :: i <= k < |c.slots| && AllGranted(answers, i, k) && Bare(b, c.slots[k], speed)
  }

  lemma MeetsBareStep(b: Bound, c: Conf, speed: Speed, answers: int -> int, i: nat)
    requires i < |c.slots|
    ensures MeetsBare(b, c, speed, answers, i) <==>
            Bare(b, c.slots[i], speed) || (answers(i) >= 0 && MeetsBare(b, c, speed, answers, i + 1))
  {
    if Bare(b, c.slots[i], speed) {
      assert AllGranted(answers, i, i);
    }
    if answers(i) >= 0 && MeetsBare(b, c, speed, answers, i + 1) {
      var k :| i + 1 <= k < |c.slots| && AllGranted(answers, i + 1, k) && Bare(b, c.slots[k], speed);
      assert AllGranted(answers, i, k);
    }
    if MeetsBare(b, c, speed, answers, i) && !Bare(b, c.slots[i], speed) {
      var k :| i <= k < |c.slots| && AllGranted(answers, i, k) && Bare(b, c.slots[k], speed);
      assert AllGranted(answers, i + 1, k) && answers(i) >= 0;
    }
  }

  // The loop follows a null pointer exactly when it meets such a function; otherwise it
  // ends configured, with the deferrals counted, exactly when no interface refuses, and
  // unconfigured if one does.
  lemma {:induction false} ActivateIs(b: Bound, d: Device, i: nat, result: int, answers: int -> int)
    requires GoodBound(b) && |d.bits| == |b.funcs| && d.config.Set? && d.config.index < |b.confs|
    requires i <= |b.confs[d.config.index].slots| && Partly(b, d, i) && result >= 0
    ensures
      var c := b.confs[d.config.index];
      var n := |c.slots|;
      match Activate(b, d, i, result, answers)
      case Fault => MeetsBare(b, c, d.speed, answers, i)
      case Gives(d', r) =>
        && !MeetsBare(b, c, d.speed, answers, i)
        && Inv(b, d') && d'.speed == d.speed
        && (r >= 0 <==> AllGranted(answers, i, n))
        && (if r >= 0 then d'.config == d.config && d'.delayed == d.delayed + Deferrals(answers, i, n)
            else d'.config == Unset && d'.delayed == 0)
    decreases |b.confs[d.config.index].slots| - i
  {
    hide Claim, Reset, FuncBits, Partly, Inv, MeetsBare, Bare, GoodBound;
    var c := b.confs[d.config.index];
    if i == |c.slots| {
      PartlyDone(b, d, i);
      NoneLeft(b, c, d.speed, answers);
    } else {
      MeetsBareStep(b, c, d.speed, answers, i);
      if !Bare(b, c.slots[i], d.speed) {
        var d' := Claim(b, d, i);
        PartlyMore(b, d, i);
        var answer := answers(i);
        if answer < 0 {
          PartlyReset(b, d', i + 1);
        } else {
          ActivateIs(b, if answer == DELAYED_STATUS then d'.(delayed := d'.delayed + 1) else d', i + 1, answer, answers);
        }
      }
    }
  }

  lemma NoneLeft(b: Bound, c: Conf, speed: Speed, answers: int -> int)
    ensures !MeetsBare(b, c, speed, answers, |c.slots|)
  {
  }

  lemma PartlyMore(b: Bound, d: Device, i: nat)
    requires GoodBound(b) && |d.bits| == |b.funcs| && d.config.Set? && d.config.index < |b.confs|
    requires Partly(b, d, i) && i < |b.confs[d.config.index].slots|
    ensures
      var d' := Claim(b, d, i);
      && d' == d.(bits := d'.bits) && |d'.bits| == |d.bits| && Partly(b, d', i + 1)
      && forall n: nat :: Partly(b, d'.(delayed := n), i + 1)
  {
    hide FuncBits;
    var c := b.confs[d.config.index];
    assert GoodConf(b, c);
    assert c.slots[..i + 1] == c.slots[..i] + [c.slots[i]];
  }

  lemma PartlyDone(b: Bound, d: Device, i: nat)
    requires |d.bits| == |b.funcs| && d.config.Set? && d.config.index < |b.confs|
    requires Partly(b, d, i) && i == |b.confs[d.config.index].slots|
    ensures Inv(b, d)
  {
    hide FuncBits;
    assert b.confs[d.config.index].slots[..i] == b.confs[d.config.index].slots;
  }

  lemma DeferralsPositive(answers: int -> int, i: nat, n: nat)
    requires i < n && answers(n - 1) == DELAYED_STATUS
    ensures Deferrals(answers, i, n) > 0
    decreases n - i
  {
    if i + 1 < n {
      DeferralsPositive(answers, i + 1, n);
    }
  }

  lemma PartlyReset(b: Bound, d: Device, i: nat)
    requires GoodBound(b) && |d.bits| == |b.funcs| && d.config.Set? && d.config.index < |b.confs| && Partly(b, d, i)
    ensures Inv(b, Reset(b, d)) && Reset(b, d).config == Unset && Reset(b, d).delayed == 0
    ensures Reset(b, d).speed == d.speed
  {
    var c := b.confs[d.config.index];
    assert GoodConf(b, c);
    forall f | 0 <= f < |d.bits| && f in c.slots[..i]
      ensures f in c.funcs
    {
      var k :| 0 <= k < i && c.slots[..i][k] == f;
      assert c.slots[k] in c.funcs;
    }
  }

  // The configuration that a SET_CONFIGURATION selects has such a function on the way.
  predicate SetFaults(b: Bound, d: Device, number: nat, answers: int -> int) {
    var k := Lookup(b.confs, number);
    number > 0 && k < |b.confs| && MeetsBare(b, b.confs[k], d.speed, answers, 0)
  }

  // What SET_CONFIGURATION does, in full.  It follows a null pointer exactly when some
  // interface of the named configuration, reached before any refusal, belongs to a
  // function without descriptors for the bus speed.  Otherwise an unknown value changes
  // nothing; zero, or a refusal, leaves the device unconfigured; or else the named
  // configuration is current and as many status deferrals are outstanding as interfaces
  // asked for one.
  lemma SetConfigExactly(b: Bound, d: Device, number: nat, answers: int -> int)
    requires GoodBound(b) && Inv(b, d)
    ensures
      var k := Lookup(b.confs, number);
      match SetConfig(b, d, number, answers)
      case Fault => SetFaults(b, d, number, answers)
      case Gives(d', r) =>
        && !SetFaults(b, d, number, answers)
        && Inv(b, d') && d'.speed == d.speed
        && if number == 0 then d'.config == Unset && r == 0
           else if k == |b.confs| then d' == d && r == EINVAL
           else
             var n := |b.confs[k].slots|;
             if AllGranted(answers, 0, n) then
               && d'.config == Set(k) && d'.delayed == Deferrals(answers, 0, n)
               && r >= 0 && (r == DELAYED_STATUS <==> d'.delayed > 0)
             else d'.config == Unset && d'.delayed == 0 && r < 0
  {
    hide Activate, Deferrals, MeetsBare;
    ResetKeeps(b, d);
    var k := Lookup(b.confs, number);
    if number > 0 && k < |b.confs| {
      var d0 := Reset(b, d).(config := Set(k), delayed := 0);
      assert b.confs[k].slots[..0] == [];
      ActivateIs(b, d0, 0, 0, answers);
      ActivateResult(b, d0, 0, 0, answers);
      var n := |b.confs[k].slots|;
      if n > 0 && answers(n - 1) == DELAYED_STATUS {
        DeferralsPositive(answers, 0, n);
      }
    }
  }

  // Without a refusal, the loop's result is the last callback's.
  lemma {:induction false} ActivateResult(b: Bound, d: Device, i: nat, result: int, answers: int -> int)
    requires GoodBound(b) && |d.bits| == |b.funcs| && d.config.Set? && d.config.index < |b.confs|
    requires i <= |b.confs[d.config.index].slots|
    ensures
      var n := |b.confs[d.config.index].slots|;
      var o := Activate(b, d, i, result, answers);
      o.Gives? && AllGranted(answers, i, n) ==> o.result == if i == n then result else answers(n - 1)
    decreases |b.confs[d.config.index].slots| - i
  {
    hide Claim, Reset, Bare, GoodBound;
    var c := b.confs[d.config.index];
    if i < |c.slots| && AllGranted(answers, i, |c.slots|) && !Bare(b, c.slots[i], d.speed) {
      assert answers(i) >= 0;
      var d' := Claim(b, d, i);
      ClaimSame(b, d, i);
      ActivateResult(b, if answers(i) == DELAYED_STATUS then d'.(delayed := d'.delayed + 1) else d', i + 1, answers(i), answers);
    }
  }

  lemma ClaimSame(b: Bound, d: Device, i: nat)
    requires d.config.Set? && d.config.index < |b.confs| && GoodBound(b)
    requires |d.bits| == |b.funcs| && i < |b.confs[d.config.index].slots|
    ensures Claim(b, d, i) == d.(bits := Claim(b, d, i).bits) && |Claim(b, d, i).bits| == |d.bits|
  {
  }

  // ---- Runs

  // Other stands for every control request that touches neither the configuration nor an
  // altsetting.  After a disconnect the bus may come back at another speed.
  datatype Step = SetConfiguration(number: nat, answers: int -> int) | SetInterface(intf: nat, answer: int)
                | Continue | Disconnect(speed: Speed) | Other

  // The device after a step; whether the request was answered at once, whether it was
  // deferred, and whether a deferred status stage was submitted.
  datatype Outcome = Outcome(device: Device, now: bool, deferred: bool, later: bool) | Faulted

  // The interface exists in the current configuration.
  predicate HasInterface(b: Bound, d: Device, intf: nat)
    requires Sane(b, d)
  {
    d.config.Set? && intf < MAX_CONFIG_INTERFACES && intf < |b.confs[d.config.index].slots|
  }

  // The SET_INTERFACE arm of composite_setup.
  function SetInterfaceStep(b: Bound, d: Device, intf: nat, answer: int): Called
    requires Sane(b, d)
  {
    if !HasInterface(b, d, intf) then Gives(d, EOPNOTSUPP)
    else Gives(if answer == DELAYED_STATUS then d.(delayed := d.delayed + 1) else d, answer)
  }

  // usb_composite_setup_continue: the device, and whether the status stage is submitted.
  function ContinueStep(d: Device): (Device, bool) {
    if d.delayed == 0 then (d, false) else (d.(delayed := d.delayed - 1), d.delayed == 1)
  }

  function Answered(c: Called): Outcome {
    match c
    case Fault => Faulted
    case Gives(d, value) => Outcome(d, value >= 0 && value != DELAYED_STATUS, value == DELAYED_STATUS, false)
  }

  function Next(b: Bound, d: Device, s: Step): Outcome
    requires GoodBound(b) && Sane(b, d)
  {
    match s
    case SetConfiguration(number, answers) => Answered(SetConfig(b, d, number, answers))
    case SetInterface(intf, answer) => Answered(SetInterfaceStep(b, d, intf, answer))
    case Continue =>
      var (d', later) := ContinueStep(d);
      Outcome(d', false, false, later)
    case Disconnect(speed) => Outcome(Reset(b, d).(speed := speed), false, false, false)
    case Other => Outcome(d, false, false, false)
  }

  predicate Faults(b: Bound, d: Device, s: Step) {
    s.SetConfiguration? && SetFaults(b, d, s.number, s.answers)
  }

  lemma NextKeeps(b: Bound, d: Device, s: Step)
    requires GoodBound(b) && Inv(b, d)
    ensures Next(b, d, s).Faulted? <==> Faults(b, d, s)
    ensures
      var o := Next(b, d, s);
      o.Outcome? ==>
        && Inv(b, o.device)
        && (o.later ==> s.Continue? && d.delayed == 1)
        && (d.delayed == 0 && o.device.delayed > 0 ==> o.deferred)
  {
    hide SetConfig, Reset, GoodBound, SetFaults;
    match s
    case SetConfiguration(number, answers) => SetConfigExactly(b, d, number, answers);
    case SetInterface(_, _) =>
    case Continue =>
    case Disconnect(_) => ResetKeeps(b, d);
    case Other =>
  }

  // States joined by steps that meet no null descriptor vector.
  ghost predicate IsRun(b: Bound, ds: seq<Device>, ss: seq<Step>) {
    && GoodBound(b) && |ds| == |ss| + 1
    && ds[0].config == Unset && ds[0].delayed == 0 && |ds[0].bits| == |b.funcs|
    && (forall f :: 0 <= f < |b.funcs| ==> ds[0].bits[f] == {})
    && forall k :: 0 <= k < |ss| ==>
         Sane(b, ds[k]) && Next(b, ds[k], ss[k]).Outcome? && ds[k + 1] == Next(b, ds[k], ss[k]).device
  }

  // Requests deferred and status stages submitted in the first k steps.
  function DeferredIn(b: Bound, ds: seq<Device>, ss: seq<Step>, k: nat): nat
    requires IsRun(b, ds, ss) && k <= |ss|
  {
    if k == 0 then 0 else DeferredIn(b, ds, ss, k - 1) + if Next(b, ds[k - 1], ss[k - 1]).deferred then 1 else 0
  }

  function SubmittedIn(b: Bound, ds: seq<Device>, ss: seq<Step>, k: nat): nat
    requires IsRun(b, ds, ss) && k <= |ss|
  {
    if k == 0 then 0 else SubmittedIn(b, ds, ss, k - 1) + if Next(b, ds[k - 1], ss[k - 1]).later then 1 else 0
  }

  // In every state of a run: an unconfigured device has no deferral outstanding and no
  // endpoint bit set, a configured one has exactly its endpoints, there have never been
  // more late status stages than deferred requests, and the next step follows a null
  // pointer exactly when it selects a configuration with a function that has no
  // descriptors for the bus speed, before any refusal.
  lemma {:induction false} RunIsSafe(b: Bound, ds: seq<Device>, ss: seq<Step>, k: nat, s: Step)
    requires IsRun(b, ds, ss) && k <= |ss|
    ensures Inv(b, ds[k])
    ensures SubmittedIn(b, ds, ss, k) + (if ds[k].delayed > 0 then 1 else 0) <= DeferredIn(b, ds, ss, k)
    ensures Next(b, ds[k], s).Faulted? <==> Faults(b, ds[k], s)
  {
    if k > 0 {
      RunIsSafe(b, ds, ss, k - 1, s);
      NextKeeps(b, ds[k - 1], ss[k - 1]);
      RunStep(b, ds, ss, k - 1);
    }
    NextKeeps(b, ds[k], s);
    hide Next, GoodBound, Inv, Faults;
  }

  lemma RunStep(b: Bound, ds: seq<Device>, ss: seq<Step>, k: nat)
    requires IsRun(b, ds, ss) && k < |ss|
    ensures Sane(b, ds[k]) && Next(b, ds[k], ss[k]).Outcome? && ds[k + 1] == Next(b, ds[k], ss[k]).device
  {
  }

  // ---- One deferred request

  // The step starts the count of deferrals again: it goes on to another configuration or
  // to none, or refuses one half way.
  predicate Restarts(b: Bound, s: Step) {
    || s.Disconnect?
    || (s.SetConfiguration? && (s.number == 0 || Lookup(b.confs, s.number) < |b.confs|))
  }

  // The step, with configuration c current, neither does that nor adds a deferral.
  predicate Quiet(b: Bound, c: nat, s: Step) {
    && !Restarts(b, s)
    && (s.SetInterface? && c < |b.confs| && s.intf < MAX_CONFIG_INTERFACES && s.intf < |b.confs[c].slots| ==>
          s.answer != DELAYED_STATUS)
  }

  // A late status stage: after which step, and on behalf of which deferred requests.
  datatype Stage = Never | Late(at: nat, owners: set<nat>)

  // The first late status stage in a run of steps, of which the first has number n; owners
  // are the requests that the outstanding deferrals come from.
  function FirstLate(b: Bound, d: Device, owners: set<nat>, ss: seq<Step>, n: nat): Stage
    requires GoodBound(b) && Inv(b, d)
    decreases |ss|
  {
    if ss == [] then Never
    else
      NextKeeps(b, d, ss[0]);
      match Next(b, d, ss[0])
      case Faulted => Never
      case Outcome(d', now, deferred, later) =>
        if later then Late(0, owners)
        else
          var kept := if Restarts(b, ss[0]) then {} else owners;
          match FirstLate(b, d', if deferred then kept + {n} else kept, ss[1..], n + 1)
          case Never => Never
          case Late(at, who) => Late(at + 1, who)
  }

  // Where the k-th continue is.
  function KthContinue(ss: seq<Step>, k: nat): (i: nat)
    requires k > 0
    ensures i <= |ss| && (i < |ss| ==> ss[i].Continue?)
    decreases |ss|
  {
    if ss == [] then 0
    else if !ss[0].Continue? then 1 + KthContinue(ss[1..], k)
    else if k == 1 then 0
    else 1 + KthContinue(ss[1..], k - 1)
  }

  predicate AllQuiet(b: Bound, c: nat, ss: seq<Step>) { forall i :: 0 <= i < |ss| ==> Quiet(b, c, ss[i]) }

  // Once a deferral of another request is outstanding, or the count has started again, no
  // status stage is that of request q alone any more.
  lemma {:induction false} NotAlone(b: Bound, d: Device, owners: set<nat>, ss: seq<Step>, n: nat, q: nat)
    requires GoodBound(b) && Inv(b, d) && owners != {q} && q < n
    ensures
      match FirstLate(b, d, owners, ss, n)
      case Never => true
      case Late(_, who) => who != {q}
    decreases |ss|
  {
    hide Next, Routed, GoodBound, Restarts;
    if ss != [] {
      NextKeeps(b, d, ss[0]);
      var o := Next(b, d, ss[0]);
      if o.Outcome? && !o.later {
        var kept := if Restarts(b, ss[0]) then {} else owners;
        var next := if o.deferred then kept + {n} else kept;
        assert o.deferred ==> n in next;
        NotAlone(b, o.device, next, ss[1..], n + 1, q);
      }
    }
  }

  // One step while the deferrals of request q alone are outstanding.
  lemma AloneStep(b: Bound, d: Device, s: Step)
    requires GoodBound(b) && Inv(b, d) && d.config.Set? && d.delayed > 0
    ensures
      var o := Next(b, d, s);
      if !Quiet(b, d.config.index, s) then o.Faulted? || (!o.later && (Restarts(b, s) || o.deferred))
      else
        && o.Outcome? && !o.deferred && !Restarts(b, s) && o.device.config == d.config
        && o.device.delayed == (if s.Continue? then d.delayed - 1 else d.delayed)
        && (o.later <==> s.Continue? && d.delayed == 1)
  {
    hide SetConfig, Reset, GoodBound;
    NextKeeps(b, d, s);
    if s.SetConfiguration? {
      SetConfigExactly(b, d, s.number, s.answers);
    }
  }

  lemma {:induction false} AloneExactly(b: Bound, d: Device, ss: seq<Step>, n: nat, q: nat)
    requires GoodBound(b) && Inv(b, d) && d.config.Set? && d.delayed > 0 && q < n
    requires KthContinue(ss, d.delayed) < |ss|
    ensures
      var c := KthContinue(ss, d.delayed);
      FirstLate(b, d, {q}, ss, n) == Late(c, {q}) <==> AllQuiet(b, d.config.index, ss[..c])
    decreases |ss|
  {
    hide Next, Routed, GoodBound, Restarts, Quiet;
    var c, s := KthContinue(ss, d.delayed), ss[0];
    NextKeeps(b, d, s);
    AloneStep(b, d, s);
    var o := Next(b, d, s);
    QuietFirst(b, d.config.index, ss, c);
    ContinueIsQuiet(b, d.config.index, s);
    if !Quiet(b, d.config.index, s) {
      if o.Outcome? {
        var kept := if Restarts(b, s) then {} else {q};
        var next := if o.deferred then kept + {n} else kept;
        assert o.deferred ==> n in next;
        NotAlone(b, o.device, next, ss[1..], n + 1, q);
      }
    } else if !o.later {
      AloneExactly(b, o.device, ss[1..], n + 1, q);
    }
  }

  lemma ContinueIsQuiet(b: Bound, c: nat, s: Step)
    ensures s.Continue? ==> Quiet(b, c, s)
  {
  }

  lemma QuietFirst(b: Bound, c: nat, ss: seq<Step>, i: nat)
    requires i < |ss|
    ensures AllQuiet(b, c, ss[..i]) <==> i == 0 || (Quiet(b, c, ss[0]) && AllQuiet(b, c, ss[1..][..i - 1]))
  {
    if i > 0 {
      var rest := ss[1..][..i - 1];
      assert ss[..i] == [ss[0]] + rest;
      if AllQuiet(b, c, ss[..i]) {
        forall k | 0 <= k < |rest|
          ensures Quiet(b, c, rest[k])
        {
          assert rest[k] == ss[..i][k + 1];
        }
        assert ss[..i][0] == ss[0];
      }
    }
  }

  // A SET_CONFIGURATION that no interface refuses is answered at once exactly when none
  // defers.  If k interfaces defer then, whatever the host and the functions do next, the
  // first late status stage comes at the k-th continue and is this request's alone exactly
  // when no step before that continue sets another configuration, disconnects, or defers
  // another request.
  lemma DelayedExactly(b: Bound, d: Device, number: nat, answers: int -> int, ss: seq<Step>, n: nat)
    requires GoodBound(b) && Inv(b, d) && number > 0 && Lookup(b.confs, number) < |b.confs|
    requires AllGranted(answers, 0, |b.confs[Lookup(b.confs, number)].slots|)
    requires !SetFaults(b, d, number, answers)
    ensures
      var at := Lookup(b.confs, number);
      var k := Deferrals(answers, 0, |b.confs[at].slots|);
      var o := Next(b, d, SetConfiguration(number, answers));
      && o.Outcome? && Inv(b, o.device) && (o.now <==> k == 0) && (o.deferred <==> k > 0)
      && (k > 0 && KthContinue(ss, k) < |ss| ==>
            var c := KthContinue(ss, k);
            FirstLate(b, o.device, {n}, ss, n + 1) == Late(c, {n}) <==> AllQuiet(b, at, ss[..c]))
  {
    hide SetConfig, Deferrals, Routed, FirstLate, KthContinue, AllQuiet, SetFaults;
    SetConfigExactly(b, d, number, answers);
    var o := Next(b, d, SetConfiguration(number, answers));
    if o.device.delayed > 0 && KthContinue(ss, o.device.delayed) < |ss| {
      AloneExactly(b, o.device, ss, n + 1, n);
    }
  }

  // So a continue counts for whatever is outstanding, whoever sends it.  When the host sets
  // configuration y before the k continues for x have come, the first late status stage is
  // that of y alone, at the k'-th continue after it; nothing is ever submitted for x.
  lemma LateContinue(b: Bound, d: Device, x: nat, xs: int -> int, before: seq<Step>, y: nat, ys: int -> int,
                     after: seq<Step>, n: nat)
    requires GoodBound(b) && Inv(b, d) && x > 0 && y > 0
    requires Lookup(b.confs, x) < |b.confs| && Lookup(b.confs, y) < |b.confs|
    requires AllGranted(xs, 0, |b.confs[Lookup(b.confs, x)].slots|)
    requires AllGranted(ys, 0, |b.confs[Lookup(b.confs, y)].slots|)
    requires !SetFaults(b, d, x, xs) && !SetFaults(b, d, y, ys)
    requires Deferrals(xs, 0, |b.confs[Lookup(b.confs, x)].slots|) > Continues(before)
    requires Deferrals(ys, 0, |b.confs[Lookup(b.confs, y)].slots|) > 0
    requires AllQuiet(b, Lookup(b.confs, x), before)
    ensures
      var k := Deferrals(ys, 0, |b.confs[Lookup(b.confs, y)].slots|);
      var o := Next(b, d, SetConfiguration(x, xs));
      && o.Outcome? && Inv(b, o.device)
      && var c := KthContinue(after, k);
         c < |after| && AllQuiet(b, Lookup(b.confs, y), after[..c]) ==>
           FirstLate(b, o.device, {n}, before + [SetConfiguration(y, ys)] + after, n + 1)
           == Late(|before| + 1 + c, {n + 1 + |before|})
  {
    hide SetConfig, Deferrals, Routed, FirstLate, KthContinue, AllQuiet, SetFaults, Continues;
    SetConfigExactly(b, d, x, xs);
    var o := Next(b, d, SetConfiguration(x, xs));
    SameFaults(b, d, o.device, y, ys);
    Overtaken(b, o.device, {n}, before, y, ys, after, n + 1);
  }

  function Continues(ss: seq<Step>): nat
    decreases |ss|
  {
    if ss == [] then 0 else (if ss[0].Continue? then 1 else 0) + Continues(ss[1..])
  }

  // Quiet steps with too few continues among them, and then another configuration.
  lemma {:induction false} Overtaken(b: Bound, d: Device, owners: set<nat>, before: seq<Step>, y: nat, ys: int -> int,
                                     after: seq<Step>, n: nat)
    requires GoodBound(b) && Inv(b, d) && d.config.Set? && y > 0 && Lookup(b.confs, y) < |b.confs|
    requires AllGranted(ys, 0, |b.confs[Lookup(b.confs, y)].slots|) && !SetFaults(b, d, y, ys)
    requires d.delayed > Continues(before) && AllQuiet(b, d.config.index, before)
    requires Deferrals(ys, 0, |b.confs[Lookup(b.confs, y)].slots|) > 0
    ensures
      var c := KthContinue(after, Deferrals(ys, 0, |b.confs[Lookup(b.confs, y)].slots|));
      c < |after| && AllQuiet(b, Lookup(b.confs, y), after[..c]) ==>
        FirstLate(b, d, owners, before + [SetConfiguration(y, ys)] + after, n)
        == Late(|before| + 1 + c, {n + |before|})
    decreases |before|
  {
    hide Next, Routed, GoodBound, Restarts, Quiet, Deferrals, KthContinue, SetFaults, AllGranted;
    var all := before + [SetConfiguration(y, ys)] + after;
    if before == [] {
      assert all[0] == SetConfiguration(y, ys) && all[1..] == after;
      DelayedExactly(b, d, y, ys, after, n);
      NextKeeps(b, d, all[0]);
      SettingRestarts(b, d, y, ys);
      assert {} + {n} == {n};
    } else {
      assert all[0] == before[0] && all[1..] == before[1..] + [SetConfiguration(y, ys)] + after;
      NextKeeps(b, d, before[0]);
      AloneStep(b, d, before[0]);
      QuietKeepsSpeed(b, d, before[0]);
      SameFaults(b, d, Next(b, d, before[0]).device, y, ys);
      assert AllQuiet(b, d.config.index, before[1..]) by {
        assert forall i :: 0 <= i < |before[1..]| ==> before[1..][i] == before[i + 1];
      }
      Overtaken(b, Next(b, d, before[0]).device, owners, before[1..], y, ys, after, n + 1);
    }
  }

  lemma SameFaults(b: Bound, d: Device, e: Device, number: nat, answers: int -> int)
    requires d.speed == e.speed
    ensures SetFaults(b, d, number, answers) == SetFaults(b, e, number, answers)
  {
  }

  lemma SettingRestarts(b: Bound, d: Device, y: nat, ys: int -> int)
    requires GoodBound(b) && Inv(b, d) && Lookup(b.confs, y) < |b.confs|
    ensures Restarts(b, SetConfiguration(y, ys))
    ensures Next(b, d, SetConfiguration(y, ys)).Outcome? ==> !Next(b, d, SetConfiguration(y, ys)).later
  {
    hide SetConfig;
  }

  // So that the next configuration meets the same descriptors.
  lemma QuietKeepsSpeed(b: Bound, d: Device, s: Step)
    requires GoodBound(b) && Inv(b, d) && d.config.Set? && Quiet(b, d.config.index, s)
    ensures Next(b, d, s).Outcome? && Next(b, d, s).device.speed == d.speed
  {
    hide SetConfig;
    NextKeeps(b, d, s);
    if s.SetConfiguration? {
      SetConfigExactly(b, d, s.number, s.answers);
    }
  }

  // ---- And it comes only once

  // The device after some steps, and the late status stages among them.
  function Wait(b: Bound, d: Device, ss: seq<Step>): (Device, nat)
    requires GoodBound(b) && Inv(b, d)
    decreases |ss|
  {
    if ss == [] then (d, 0)
    else
      NextKeeps(b, d, ss[0]);
      match Next(b, d, ss[0])
      case Faulted => (d, 0)
      case Outcome(d', _, _, later) =>
        var (e, n) := Wait(b, d', ss[1..]);
        (e, if later then n + 1 else n)
  }

  // A quiet step of a configured device: a continue counts down, and nothing else does.
  lemma QuietStep(b: Bound, d: Device, s: Step)
    requires GoodBound(b) && Inv(b, d) && d.config.Set? && Quiet(b, d.config.index, s)
    ensures
      var o := Next(b, d, s);
      && o.Outcome? && Inv(b, o.device) && !o.deferred && o.device.config == d.config
      && o.device.delayed == (if s.Continue? && d.delayed > 0 then d.delayed - 1 else d.delayed)
      && (o.later <==> s.Continue? && d.delayed == 1)
  {
    hide SetConfig, Reset, GoodBound;
    NextKeeps(b, d, s);
    if s.SetConfiguration? {
      SetConfigExactly(b, d, s.number, s.answers);
    }
  }

  // Over quiet steps the count falls with each continue to zero, and the status stage is
  // submitted when it reaches it and never again.
  lemma {:induction false} WaitExactly(b: Bound, d: Device, ss: seq<Step>)
    requires GoodBound(b) && Inv(b, d) && d.config.Set? && AllQuiet(b, d.config.index, ss)
    ensures
      var (e, n) := Wait(b, d, ss);
      && e.config == d.config
      && e.delayed == (if Continues(ss) < d.delayed then d.delayed - Continues(ss) else 0)
      && n == if 0 < d.delayed <= Continues(ss) then 1 else 0
    decreases |ss|
  {
    hide Next, Routed, GoodBound, Quiet;
    if ss != [] {
      QuietStep(b, d, ss[0]);
      NextKeeps(b, d, ss[0]);
      assert forall i :: 0 <= i < |ss[1..]| ==> ss[1..][i] == ss[i + 1];
      WaitExactly(b, Next(b, d, ss[0]).device, ss[1..]);
    }
  }

  // As long as no step sets another configuration, disconnects or defers another request,
  // the status stage of a deferred SET_CONFIGURATION is submitted once, however many
  // continues there are.
  lemma DelayedOnce(b: Bound, d: Device, number: nat, answers: int -> int, ss: seq<Step>)
    requires GoodBound(b) && Inv(b, d) && number > 0
    requires Lookup(b.confs, number) < |b.confs| && !SetFaults(b, d, number, answers)
    requires AllGranted(answers, 0, |b.confs[Lookup(b.confs, number)].slots|)
    requires AllQuiet(b, Lookup(b.confs, number), ss)
    ensures
      var k := Deferrals(answers, 0, |b.confs[Lookup(b.confs, number)].slots|);
      var o := Next(b, d, SetConfiguration(number, answers));
      && o.Outcome? && Inv(b, o.device) && (o.now <==> k == 0) && (o.deferred <==> k > 0)
      && Wait(b, o.device, ss).1 == if 0 < k <= Continues(ss) then 1 else 0
  {
    hide SetConfig, Deferrals, Routed, Wait, Continues, SetFaults;
    SetConfigExactly(b, d, number, answers);
    WaitExactly(b, Next(b, d, SetConfiguration(number, answers)).device, ss);
  }
}
