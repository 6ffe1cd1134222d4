/** reset_config, set_config, the SET_CONFIGURATION and SET_INTERFACE arms of
    composite_setup, composite_disconnect and usb_composite_setup_continue of
    gadget/composite.c on the fields they update, each proved to be the step of module
    CompositeMachine. */
module CompositeDevice {
  import opened Basics
  import opened ConfigDescriptor
  import opened CompositeMachine

  class Composite {
    const bound: Bound
    var config: Current
    var delayedStatus: nat
    var endpoints: seq<set<nat>>
    var speed: Speed

    ghost function Value(): Device
      reads this
    {
      Device(config, delayedStatus, endpoints, speed)
    }

    constructor (bound: Bound, speed: Speed)
      ensures this.bound == bound && Inv(bound, Value()) && config == Unset && this.speed == speed
    {
      this.bound, config, delayedStatus, this.speed := bound, Unset, 0, speed;
      endpoints := seq(|bound.funcs|, _ => {});
    }

    // reset_config
    method ResetConfig()
      requires GoodBound(bound) && config.Set? && config.index < |bound.confs| && |endpoints| == |bound.funcs|
      modifies this
      ensures Value() == Reset(bound, old(Value()))
    {
      var funcs := bound.confs[config.index].funcs;
      assert GoodConf(bound, bound.confs[config.index]);
      for i := 0 to |funcs|
        invariant Value() == old(Value()).(bits := Cleared(old(endpoints), funcs[..i]))
      {
        assert funcs[..i + 1][..i] == funcs[..i];
        endpoints := endpoints[funcs[i] := {}];
      }
      assert funcs[..|funcs|] == funcs;
      config, delayedStatus := Unset, 0;
    }

    // The loop of set_config over the descriptors of one function.
    method SetBits(f: nat)
      requires f < |bound.funcs| == |endpoints|
      modifies this`endpoints
      ensures endpoints == old(endpoints)[f := old(endpoints)[f] + FuncBits(bound, f, speed)]
    {
      var ds := Elements(ForSpeed(bound.funcs[f], speed));
      for i := 0 to |ds|
        invariant |endpoints| == |old(endpoints)| && endpoints[f] == old(endpoints)[f] + Bits(ds[..i])
        invariant endpoints == old(endpoints)[f := endpoints[f]]
      {
        assert ds[..i + 1][..i] == ds[..i];
        if IsEndpoint(ds[i]) {
          endpoints := endpoints[f := endpoints[f] + {Bit(ds[i][2])}];
        }
      }
      assert ds[..|ds|] == ds;
    }

    // The search of set_config.
    method FindConfig(number: nat) returns (k: nat)
      ensures k == Lookup(bound.confs, number)
    {
      k := 0;
      while k < |bound.confs| && bound.confs[k].value != number
        invariant k <= |bound.confs|
        invariant forall i :: 0 <= i < k ==> bound.confs[i].value != number
      {
        k := k + 1;
      }
    }

    // The loop of set_config over the interfaces; answers are what the set_alt callbacks
    // return.  fault says that it follows a null vector, where it goes no further.
    method SetInterfaces(answers: int -> int) returns (result: int, fault: bool)
      requires GoodBound(bound) && config.Set? && config.index < |bound.confs| && |endpoints| == |bound.funcs|
      modifies this
      ensures Activate(bound, old(Value()), 0, 0, answers) == if fault then Fault else Gives(Value(), result)
    {
      hide Reset, FuncBits, GoodBound;
      result, fault := 0, false;
      var slots := bound.confs[config.index].slots;
      var index := config.index;
      ghost var all := Activate(bound, Value(), 0, 0, answers);
      SlotsFit(bound, index);
      for i := 0 to |slots|
        invariant config == Set(index) && |endpoints| == |bound.funcs| && !fault
        invariant Activate(bound, Value(), i, result, answers) == all
      {
        if ForSpeed(bound.funcs[slots[i]], speed).Null? {
          fault := true;
          return;
        }
        SetBits(slots[i]);
        result := answers(i);
        if result < 0 {
          ResetConfig();
          return;
        }
        if result == DELAYED_STATUS {
          delayedStatus := delayedStatus + 1;
        }
      }
    }

    // set_config
    method DoSetConfig(number: nat, answers: int -> int) returns (result: int, fault: bool)
      requires GoodBound(bound) && Inv(bound, Value())
      modifies this
      ensures SetConfig(bound, old(Value()), number, answers) == if fault then Fault else Gives(Value(), result)
      ensures fault <==> SetFaults(bound, old(Value()), number, answers)
      ensures !fault ==> Inv(bound, Value())
    {
      SetConfigExactly(bound, Value(), number, answers);
      NumberPositive(bound);
      hide Reset, Activate, Routed, GoodBound, SetFaults;
      result, fault := 0, false;
      var k := |bound.confs|;
      if number > 0 {
        k := FindConfig(number);
        if k == |bound.confs| {
          return EINVAL, false;
        }
      }
      if config.Set? {
        ResetConfig();
      } else {
        ResetUnset(bound, Value());
      }
      ResetSize(bound, old(Value()));
      if number > 0 {
        config, delayedStatus := Set(k), 0;
        result, fault := SetInterfaces(answers);
        if fault {
          return;
        }
      }
      if result >= 0 && delayedStatus > 0 {
        result := DELAYED_STATUS;
      }
    }

    // The SET_CONFIGURATION arm of composite_setup, and what follows it.
    method SetConfigurationRequest(number: nat, answers: int -> int) returns (value: int, now: bool, fault: bool)
      requires GoodBound(bound) && Inv(bound, Value())
      modifies this
      ensures fault <==> Faults(bound, old(Value()), SetConfiguration(number, answers))
      ensures !fault ==> Inv(bound, Value())
      ensures Next(bound, old(Value()), SetConfiguration(number, answers))
           == if fault then Faulted else Outcome.Outcome(Value(), now, value == DELAYED_STATUS, false)
    {
      hide SetConfig, Routed, SetFaults;
      value, fault := DoSetConfig(number, answers);
      now := value >= 0 && value != DELAYED_STATUS;
    }

    // The SET_INTERFACE arm of composite_setup, and what follows it; answer is what set_alt
    // returns.
    method SetInterfaceRequest(intf: nat, answer: int) returns (value: int, now: bool)
      requires GoodBound(bound) && Inv(bound, Value())
      modifies this
      ensures Inv(bound, Value())
      ensures Outcome.Outcome(Value(), now, value == DELAYED_STATUS, false)
           == Next(bound, old(Value()), SetInterface(intf, answer))
    {
      NextKeeps(bound, Value(), SetInterface(intf, answer));
      hide FuncBits;
      value := EOPNOTSUPP;
      if config.Set? && intf < MAX_CONFIG_INTERFACES && intf < |bound.confs[config.index].slots| {
        value := answer;
        if value == DELAYED_STATUS {
          delayedStatus := delayedStatus + 1;
        }
      }
      now := value >= 0 && value != DELAYED_STATUS;
    }

    // usb_composite_setup_continue
    method SetupContinue() returns (later: bool)
      requires GoodBound(bound) && Inv(bound, Value())
      modifies this`delayedStatus
      ensures Inv(bound, Value()) && (Value(), later) == ContinueStep(old(Value()))
    {
      later := false;
      if delayedStatus > 0 {
        delayedStatus := delayedStatus - 1;
        later := delayedStatus == 0;
      }
    }

    // composite_disconnect
    method DoDisconnect(next: Speed)
      requires GoodBound(bound) && Inv(bound, Value())
      modifies this
      ensures Inv(bound, Value())
      ensures Value() == Next(bound, old(Value()), Disconnect(next)).device
    {
      NextKeeps(bound, Value(), Disconnect(next));
      if config.Set? {
        ResetConfig();
      }
      speed := next;
    }
  }

  lemma SlotsFit(b: Bound, k: nat)
    requires GoodBound(b) && k < |b.confs|
    ensures forall i :: 0 <= i < |b.confs[k].slots| ==> b.confs[k].slots[i] < |b.funcs|
  {
    assert GoodConf(b, b.confs[k]);
  }

  lemma NumberPositive(b: Bound)
    requires GoodBound(b)
    ensures Lookup(b.confs, 0) == |b.confs|
  {
    assert forall k :: 0 <= k < |b.confs| ==> GoodConf(b, b.confs[k]);
  }

  lemma ResetUnset(b: Bound, d: Device)
    requires d.config.Unset?
    ensures Reset(b, d) == d
  {
  }

  lemma ResetSize(b: Bound, d: Device)
    requires Sane(b, d)
    ensures |Reset(b, d).bits| == |b.funcs| && Reset(b, d).delayed == 0 && Reset(b, d).config == Unset
  {
  }
}
