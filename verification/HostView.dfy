/** A configuration descriptor as the host reads it, field by field at the offsets of section
    9.6.3 of USB 2.0, and what it can do with what it has read. */
module HostView {
  import opened Basics
  import opened TxPackets
  import opened Descriptors
  import opened ConfigDescriptor
  import opened CompositeMachine

  // The first descriptor of a configuration: bDescriptorType, bNumInterfaces,
  // bConfigurationValue, iConfiguration, bmAttributes with the reserved bit 7, bMaxPower.
  predicate Announces(h: Desc, kind: Byte, interfaces: Byte, value: Byte, iConfiguration: Byte, attributes: Byte,
                      maxPower: Byte)
  {
    && |h| == 9 && h[0] == 9 && h[1] == kind && h[4] == interfaces && h[5] == value && h[6] == iConfiguration
    && h[7] >= 128 && h[7] % 128 == attributes % 128 && h[8] == maxPower
  }

  lemma HeaderAnnounces(c: Config, speed: Speed, kind: Byte, draw: nat, total: nat)
    ensures Announces(Header(c, speed, kind, draw, total), kind, c.interfaces, c.value, c.iConfiguration, c.attributes,
                      MaxPower(c, speed, draw))
  {
    hide MaxPower;
    AttributesAnnounce(c.attributes);
  }

  lemma AttributesAnnounce(attributes: Byte)
    ensures SelfOr(attributes) >= 128 && SelfOr(attributes) % 128 == attributes % 128
  {
  }

  // The bytes of config_buf, taken apart: the first descriptor announces the configuration,
  // with wTotalLength right exactly below 2^16 bytes; the configuration's own descriptors
  // come next, and then those of its functions for the speed of the bus.
  lemma ConfigReads(c: Config, speed: Speed, kind: Byte, draw: nat)
    requires SizedConfig(c)
    ensures
      var bytes := ConfigBytes(c, speed, kind, draw);
      match Parse(bytes)
      case Malformed => false
      case Descs(ds) =>
        && ds != []
        && Announces(ds[0], kind, c.interfaces, c.value, c.iConfiguration, c.attributes, MaxPower(c, speed, draw))
        && (ds[0][2] as nat + 256 * ds[0][3] as nat == |bytes| <==> |bytes| < 65536)
        && ds[1..] == Listed([c.descriptors] + AtSpeed(c.functions, speed))
  {
    hide ConfigBytes, Header, MaxPower, Parse, Listed, AtSpeed, FunctionDescs, SizedConfig;
    ConfigParses(c, speed, kind, draw);
    var h := Header(c, speed, kind, draw, TotalLength(c, speed));
    HeaderAnnounces(c, speed, kind, draw, TotalLength(c, speed));
    ListedFirst(c.descriptors, AtSpeed(c.functions, speed));
    FunctionsListed(c.functions, speed);
    var rest := Elements(c.descriptors) + FunctionDescs(c.functions, speed);
    assert [h] + Elements(c.descriptors) + FunctionDescs(c.functions, speed) == [h] + rest;
    assert ([h] + rest)[1..] == rest && ([h] + rest)[0] == h;
  }

  // The vectors of some functions for a speed: their ss_descriptors at super speed, their
  // hs_descriptors at high speed, their fs_descriptors otherwise.
  function AtSpeed(fs: seq<Function>, speed: Speed): seq<Vector> {
    if speed == Super then seq(|fs|, i requires 0 <= i < |fs| => fs[i].ss)
    else if speed == High then seq(|fs|, i requires 0 <= i < |fs| => fs[i].hs)
    else seq(|fs|, i requires 0 <= i < |fs| => fs[i].fs)
  }

  // The descriptors of some vectors, those of a null one being none.
  function Listed(vs: seq<Vector>): seq<Desc>
    decreases |vs|
  {
    if vs == [] then [] else (if vs[0] == Null then [] else vs[0].ds) + Listed(vs[1..])
  }

  lemma ListedFirst(v: Vector, vs: seq<Vector>)
    ensures Listed([v] + vs) == Elements(v) + Listed(vs)
  {
    assert ([v] + vs)[1..] == vs;
  }

  lemma {:induction false} ListedConcat(vs: seq<Vector>, ws: seq<Vector>)
    ensures Listed(vs + ws) == Listed(vs) + Listed(ws)
    decreases |vs|
  {
    if vs == [] {
      assert vs + ws == ws;
    } else {
      var rest := vs[1..] + ws;
      assert vs + ws == [vs[0]] + rest && vs == [vs[0]] + vs[1..];
      ListedConcat(vs[1..], ws);
      hide Listed;
      ListedFirst(vs[0], rest);
      ListedFirst(vs[0], vs[1..]);
    }
  }

  lemma {:induction false} FunctionsListed(fs: seq<Function>, speed: Speed)
    ensures FunctionDescs(fs, speed) == Listed(AtSpeed(fs, speed))
    decreases |fs|
  {
    if fs != [] {
      var n := |fs| - 1;
      FunctionsListed(fs[..n], speed);
      var v := AtSpeed(fs, speed)[n];
      assert AtSpeed(fs, speed) == AtSpeed(fs[..n], speed) + [v];
      ListedConcat(AtSpeed(fs[..n], speed), [v]);
      ListedFirst(v, []);
      assert [v] + [] == [v];
    }
  }

  // The same of usb_gadget_config_buf: type CONFIGURATION, bit 7 of the attributes set, the
  // length right, and everything else as the caller gave it.
  lemma GadgetConfigReads(config: Desc, ds: seq<Desc>)
    requires |config| == USB_DT_CONFIG_SIZE && AllSized(ds)
    ensures
      var bytes := Patched(config, 9 + |Flatten(ds)|) + Flatten(ds);
      match Parse(bytes)
      case Malformed => false
      case Descs(all) =>
        && all != [] && all[1..] == ds
        && Announces(all[0], 2, config[4], config[5], config[6], config[7], config[8])
        && (|bytes| < 65536 ==> all[0][2] as nat + 256 * all[0][3] as nat == |bytes|)
  {
    hide Parse, Flatten, AllSized;
    GadgetConfigParses(config, ds);
    AttributesAnnounce(config[7]);
    var h := Patched(config, 9 + |Flatten(ds)|);
    assert ([h] + ds)[1..] == ds;
  }

  // ---- Which configurations are offered

  // A configuration is listed under CONFIGURATION for the speed of the bus, and under
  // OTHER_SPEED_CONFIGURATION for the other one of full and high; a gadget of one speed below
  // super speed lists the full-speed ones under both.  They are counted in the device
  // descriptor and the device qualifier, where one of a single speed counts the full-speed
  // ones at super speed too.
  lemma OffersExactly(dual: bool, speed: Speed, c: Config)
    ensures
      var current := Usable(c, IndexSpeed(dual, speed, 2));
      var other := Usable(c, IndexSpeed(dual, speed, 7));
      && (speed == Super ==> current == other == c.super)
      && (speed == High && dual ==> current == c.high && other == c.full)
      && (speed != Super && speed != High && dual ==> current == c.full && other == c.high)
      && (speed != Super && !dual ==> current == other == c.full)
    ensures
      var current := Usable(c, CountSpeed(dual, speed, 1));
      var other := Usable(c, CountSpeed(dual, speed, 6));
      && (speed == Super && dual ==> current == other == c.super)
      && (speed == High && dual ==> current == c.high && other == c.full)
      && (speed != Super && speed != High && dual ==> current == c.full && other == c.high)
      && (!dual ==> current == other == c.full)
    ensures Matching(2, 1) && Matching(7, 6) && !Matching(2, 6) && !Matching(7, 1)
  {
  }

  // ---- Setting a configuration

  // The machine's configurations are those that the host reads about.
  predicate SameValues(cs: seq<Config>, confs: seq<Conf>) {
    && |cs| == |confs|
    && (forall k :: 0 <= k < |cs| ==> cs[k].value as nat == confs[k].value)
    && (forall j, k :: 0 <= j < k < |cs| ==> cs[j].value != cs[k].value)
  }

  // The host asks for the i-th configuration descriptor and sets the configuration with the
  // value that it reads there: if the set_alt callbacks agree, that very configuration, the
  // i-th that is usable at the speed, is current.
  lemma HostSelects(cs: seq<Config>, b: Bound, d: Device, speed: Speed, kind: Byte, draw: nat, i: nat,
                    answers: int -> int)
    requires GoodBound(b) && Inv(b, d) && SameValues(cs, b.confs)
    requires (forall k :: 0 <= k < |cs| ==> SizedConfig(cs[k])) && i < |Positions(cs, speed)|
    ensures
      var p := Positions(cs, speed)[i];
      match Parse(ConfigBytes(cs[p], speed, kind, draw))
      case Malformed => false
      case Descs(ds) =>
        && ds != [] && |ds[0]| == 9
        && var value := ds[0][5] as nat;
        && p < |b.confs|
        && (AllGranted(answers, 0, |b.confs[p].slots|) && !SetFaults(b, d, value, answers) ==>
              && SetConfig(b, d, value, answers).Gives?
              && SetConfig(b, d, value, answers).device.config == Set(p))
  {
    hide Parse, ConfigBytes, Listed, AtSpeed, SetConfig, Inv, SizedConfig, MaxPower, SetFaults;
    var p := Positions(cs, speed)[i];
    ConfigReads(cs[p], speed, kind, draw);
    var value := cs[p].value as nat;
    assert b.confs[p].value == value;
    assert Lookup(b.confs, value) == p;
    assert GoodConf(b, b.confs[p]);
    SetConfigExactly(b, d, value, answers);
  }

  // ---- Endpoint bits and deferrals

  // Bit 7 of an endpoint address chooses the half of the bitmap, its number the bit.
  lemma BitExactly(a: Byte)
    ensures Bit(a) == 16 * (a as nat / 128) + a as nat % 16
  {
  }

  // So a function's bitmap has exactly its endpoint descriptors: type 5 in byte 1, and the
  // address in byte 2 (section 9.6.6).
  lemma EndpointBits(ds: seq<Desc>, n: nat)
    ensures n in Bits(ds) <==>
            exists k :: 0 <= k < |ds| && |ds[k]| >= 3 && ds[k][1] == 5
                        && n == 16 * (ds[k][2] as nat / 128) + ds[k][2] as nat % 16
  {
    hide Bit;
    BitsExactly(ds, n);
    forall k | 0 <= k < |ds| && |ds[k]| >= 3
      ensures Bit(ds[k][2]) == 16 * (ds[k][2] as nat / 128) + ds[k][2] as nat % 16
    {
      BitExactly(ds[k][2]);
    }
  }

  // What the other steps do.  SET_INTERFACE adds a deferral when the callback of an interface
  // of the current configuration asks for one; a continue takes one off, and submits the
  // status stage with the last; a disconnect leaves the device unconfigured.
  lemma StepsExactly(b: Bound, d: Device, intf: nat, answer: int, speed: Speed)
    requires GoodBound(b) && Inv(b, d)
    ensures
      var o := Next(b, d, SetInterface(intf, answer));
      var exist := d.config.Set? && intf < |b.confs[d.config.index].slots|;
      && o.Outcome? && !o.later
      && (o.deferred <==> exist && answer == DELAYED_STATUS)
      && (o.now <==> exist && answer >= 0 && answer != DELAYED_STATUS)
      && o.device == d.(delayed := d.delayed + if o.deferred then 1 else 0)
      && SetInterfaceStep(b, d, intf, answer).result == (if exist then answer else EOPNOTSUPP)
    ensures
      var o := Next(b, d, Continue);
      && o.Outcome? && !o.now && !o.deferred && (o.later <==> d.delayed == 1)
      && o.device == d.(delayed := if d.delayed > 0 then d.delayed - 1 else 0)
    ensures
      var o := Next(b, d, Disconnect(speed));
      && o.Outcome? && !o.now && !o.deferred && !o.later
      && o.device.config == Unset && o.device.delayed == 0 && o.device.speed == speed
      && |o.device.bits| == |d.bits| && forall f :: 0 <= f < |d.bits| ==> o.device.bits[f] == {}
    ensures
      Next(b, d, Other) == Outcome(d, false, false, false)
  {
    hide SetConfig, Reset;
    ResetKeeps(b, d);
    if d.config.Set? {
      assert GoodConf(b, b.confs[d.config.index]);
    }
  }

  // The deferrals are as many as the interfaces whose callbacks ask for one.
  lemma {:induction false} DeferralsExactly(answers: int -> int, i: nat, n: nat)
    requires i <= n
    ensures Deferrals(answers, i, n) == |set k: nat | i <= k < n && answers(k) == DELAYED_STATUS|
    decreases n - i
  {
    if i < n {
      DeferralsExactly(answers, i + 1, n);
      var rest := set k: nat | i + 1 <= k < n && answers(k) == DELAYED_STATUS;
      assert (set k: nat | i <= k < n && answers(k) == DELAYED_STATUS) ==
             rest + if answers(i) == DELAYED_STATUS then {i} else {};
    } else {
      assert (set k: nat | i <= k < n && answers(k) == DELAYED_STATUS) == {};
    }
  }
}
