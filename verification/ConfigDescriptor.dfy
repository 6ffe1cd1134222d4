/** Configuration descriptors: usb_gadget_config_buf of gadget/config.c, and config_buf of
    gadget/composite.c, which writes one, config_desc, which picks the configuration, and
    count_configs, which says how many there are to pick from. */
module ConfigDescriptor {
  import opened Basics
  import opened TxPackets
  import opened Descriptors

  datatype Speed = Unknown | Full | High | Super

  datatype Function = Function(fs: Vector, hs: Vector, ss: Vector)

  datatype Config = Config(value: Byte, interfaces: Byte, iConfiguration: Byte, attributes: Byte, maxPower: nat,
                           descriptors: Vector, functions: seq<Function>, full: bool, high: bool, super: bool)

  function ForSpeed(f: Function, speed: Speed): Vector {
    match speed
    case Super => f.ss
    case High => f.hs
    case _ => f.fs
  }

  predicate SizedVector(v: Vector) { v.Vector? ==> AllSized(v.ds) }

  predicate SizedConfig(c: Config) {
    && SizedVector(c.descriptors)
    && forall k :: 0 <= k < |c.functions| ==>
         SizedVector(c.functions[k].fs) && SizedVector(c.functions[k].hs) && SizedVector(c.functions[k].ss)
  }

  function Elements(v: Vector): seq<Desc> { if v.Null? then [] else v.ds }

  function FunctionDescs(fs: seq<Function>, speed: Speed): seq<Desc> {
    if fs == [] then []
    else FunctionDescs(fs[..|fs| - 1], speed) + Elements(ForSpeed(fs[|fs| - 1], speed))
  }

  // What follows the header: the extra descriptors, then each function's for the speed.
  function Body(c: Config, speed: Speed): seq<Desc> {
    Elements(c.descriptors) + FunctionDescs(c.functions, speed)
  }

  // encode_bMaxPower; draw is the default when the configuration has none.
  function MaxPower(c: Config, speed: Speed, draw: nat): Byte {
    var val := if c.maxPower != 0 then c.maxPower else draw;
    var unit := if speed.Super? then 8 else 2;
    ((val + unit - 1) / unit % 256) as Byte
  }

  // The units that the descriptor announces are less than one too many, and they cover what
  // the configuration draws exactly when 255 of them do; beyond that the byte wraps around.
  lemma MaxPowerCovers(c: Config, speed: Speed, draw: nat)
    ensures
      var val := if c.maxPower != 0 then c.maxPower else draw;
      var unit := if speed.Super? then 8 else 2;
      var units := MaxPower(c, speed, draw) as nat;
      unit * units < val + unit && (val <= unit * units <==> val <= 255 * unit)
  {
    hide MaxPower;
    MaxPowerIs(c, speed, draw);
    var val := if c.maxPower != 0 then c.maxPower else draw;
    if speed.Super? {
      var n := (val + 7) / 8;
      assert n % 256 <= n;
    } else {
      var n := (val + 1) / 2;
      assert n % 256 <= n;
    }
  }

  lemma MaxPowerIs(c: Config, speed: Speed, draw: nat)
    ensures
      var val := if c.maxPower != 0 then c.maxPower else draw;
      MaxPower(c, speed, draw) as nat == if speed.Super? then (val + 7) / 8 % 256 else (val + 1) / 2 % 256
  {
  }

  function SelfOr(attributes: Byte): Byte { if attributes >= 128 then attributes else attributes + 128 }

  function Header(c: Config, speed: Speed, kind: Byte, draw: nat, total: nat): Desc {
    [9, kind, (total % 256) as Byte, (total / 256 % 256) as Byte, c.interfaces, c.value, c.iConfiguration,
     SelfOr(c.attributes), MaxPower(c, speed, draw)]
  }

  function TotalLength(c: Config, speed: Speed): nat { USB_DT_CONFIG_SIZE + |Flatten(Body(c, speed))| }

  function ConfigBytes(c: Config, speed: Speed, kind: Byte, draw: nat): seq<Byte> {
    Header(c, speed, kind, draw, TotalLength(c, speed)) + Flatten(Body(c, speed))
  }

  // The 16-bit field of a header, as the host reads it.
  function TotalField(h: Desc): nat
    requires |h| == USB_DT_CONFIG_SIZE
  {
    h[2] as nat + 256 * h[3] as nat
  }

  lemma FunctionsSized(fs: seq<Function>, speed: Speed)
    requires forall k :: 0 <= k < |fs| ==> SizedVector(ForSpeed(fs[k], speed))
    ensures AllSized(FunctionDescs(fs, speed))
    decreases |fs|
  {
    if fs != [] {
      FunctionsSized(fs[..|fs| - 1], speed);
    }
  }

  lemma BodySized(c: Config, speed: Speed)
    requires SizedConfig(c)
    ensures AllSized(Body(c, speed))
  {
    FunctionsSized(c.functions, speed);
  }

  lemma HeaderSized(c: Config, speed: Speed, kind: Byte, draw: nat)
    ensures
      var bytes, h := ConfigBytes(c, speed, kind, draw), Header(c, speed, kind, draw, TotalLength(c, speed));
      && Sized(h) && |h| == USB_DT_CONFIG_SIZE
      && (TotalField(h) == |bytes| <==> |bytes| < 0x10000)
  {
    hide Body, MaxPower, Flatten;
    var n := |Flatten(Body(c, speed))| + 9;
    assert n == 256 * (n / 256) + n % 256;
  }

  // A host that steps on bLength finds the header, the extra descriptors and each
  // function's descriptors for the speed, in order and nothing else; and wTotalLength is
  // the number of bytes exactly when that fits 16 bits.
  lemma ConfigParses(c: Config, speed: Speed, kind: Byte, draw: nat)
    requires SizedConfig(c)
    ensures
      var bytes, h := ConfigBytes(c, speed, kind, draw), Header(c, speed, kind, draw, TotalLength(c, speed));
      && Parse(bytes) == Descs([h] + Elements(c.descriptors) + FunctionDescs(c.functions, speed))
      && (TotalField(h) == |bytes| <==> |bytes| < 0x10000)
  {
    hide Parse, Flatten, FunctionDescs, TotalField, TotalLength, AllSized, SizedConfig;
    var h := Header(c, speed, kind, draw, TotalLength(c, speed));
    var body, all := Body(c, speed), [h] + Body(c, speed);
    BodySized(c, speed);
    HeaderSized(c, speed, kind, draw);
    SizedRest(all);
    FlattenFirst(all);
    assert all[1..] == body;
    ParseExactly(ConfigBytes(c, speed, kind, draw), all);
    assert all == [h] + Elements(c.descriptors) + FunctionDescs(c.functions, speed);
  }

  // ---- config_buf

  lemma WrittenTwice(was: seq<Byte>, at: nat, xs: seq<Desc>, ys: seq<Desc>)
    requires at + |Flatten(xs)| + |Flatten(ys)| <= |was|
    ensures |Flatten(xs + ys)| == |Flatten(xs)| + |Flatten(ys)|
    ensures Written(Written(was, at, xs), at + |Flatten(xs)|, ys) == Written(was, at, xs + ys)
  {
    hide Flatten;
    FlattenConcat(xs, ys);
    var x, y := Flatten(xs), Flatten(ys);
    SpliceTwice(was, at, x, y);
    assert Written(was, at, xs) == was[..at] + x + was[at + |x|..];
    assert Written(was, at, xs + ys) == was[..at] + (x + y) + was[at + |x + y|..];
  }

  lemma SpliceTwice(was: seq<Byte>, at: nat, x: seq<Byte>, y: seq<Byte>)
    requires at + |x| + |y| <= |was|
    ensures
      var r, e := was[..at] + x + was[at + |x|..], at + |x|;
      r[..e] + y + r[e + |y|..] == was[..at] + (x + y) + was[at + |x + y|..]
  {
    var r, e := was[..at] + x + was[at + |x|..], at + |x|;
    assert r[..e] == was[..at] + x;
    assert r[e + |y|..] == was[e + |y|..];
  }

  // Writes the header but for the length.
  method WriteHeader(c: Config, speed: Speed, buf: array<Byte>, kind: Byte, draw: nat)
    requires buf.Length >= USB_DT_CONFIG_SIZE
    modifies buf
    ensures forall i :: 0 <= i < 9 && i != 2 && i != 3 ==> buf[i] == Header(c, speed, kind, draw, 0)[i]
    ensures buf[9..] == old(buf[9..])
  {
    buf[0], buf[1] := 9, kind;
    buf[4], buf[5], buf[6] := c.interfaces, c.value, c.iConfiguration;
    buf[7], buf[8] := SelfOr(c.attributes), MaxPower(c, speed, draw);
  }

  // The descriptors behind the header, of the configuration and of its functions.
  method WriteBody(c: Config, speed: Speed, buf: array<Byte>, bufsiz: nat) returns (len: int)
    requires SizedConfig(c) && USB_DT_CONFIG_SIZE <= bufsiz <= buf.Length
    modifies buf
    ensures len == if TotalLength(c, speed) <= bufsiz then TotalLength(c, speed) else EINVAL
    ensures len >= 0 ==> buf[..] == Written(old(buf[..]), 9, Body(c, speed))
    ensures buf[..9] == old(buf[..9]) && buf[bufsiz..] == old(buf[bufsiz..])
  {
    hide Flatten, Written, Elements, FunctionDescs, SizedVector, Body;
    ghost var was := buf[..];
    NothingWritten(was, 9);
    BodyFits(c, speed, 0);
    var next := Add(buf, bufsiz, 9, c.descriptors, was, []);
    if next < 0 {
      return EINVAL;
    }
    ghost var ds := [] + Elements(c.descriptors);
    NoFunctions(c, speed);
    for k := 0 to |c.functions|
      invariant ds == Elements(c.descriptors) + FunctionDescs(c.functions[..k], speed)
      invariant 9 <= next <= bufsiz && next == 9 + |Flatten(ds)|
      invariant buf[..] == Written(was, 9, ds)
    {
      var v := ForSpeed(c.functions[k], speed);
      BodyFits(c, speed, k + 1);
      FunctionsMore(c, speed, k);
      next := Add(buf, bufsiz, next, v, was, ds);
      if next < 0 {
        return EINVAL;
      }
      ds := ds + Elements(v);
    }
    assert c.functions[..|c.functions|] == c.functions;
    WrittenOutside(was, 9, ds, bufsiz - 9);
    OutsideIs(buf, was, 9, bufsiz);
    BodyIs(c, speed);
    len := next;
  }

  // One vector behind what is there already, unless it is null.
  method Add(buf: array<Byte>, bufsiz: nat, next: nat, v: Vector, ghost was: seq<Byte>, ghost ds: seq<Desc>)
    returns (next': int)
    requires 9 <= next <= bufsiz <= buf.Length == |was| && SizedVector(v)
    requires next == 9 + |Flatten(ds)| && buf[..] == Written(was, 9, ds)
    modifies buf
    ensures |Flatten(ds + Elements(v))| == |Flatten(ds)| + |Flatten(Elements(v))|
    ensures next' == if 9 + |Flatten(ds + Elements(v))| <= bufsiz then 9 + |Flatten(ds + Elements(v))| else EINVAL
    ensures next' >= 0 ==> buf[..] == Written(was, 9, ds + Elements(v))
    ensures buf[..9] == was[..9] && buf[bufsiz..] == was[bufsiz..]
  {
    hide Flatten, Written;
    FlattenConcat(ds, Elements(v));
    WrittenOutside(was, 9, ds, bufsiz - 9);
    OutsideIs(buf, was, 9, bufsiz);
    next' := next;
    if v.Null? {
      assert ds + Elements(v) == ds;
    } else {
      var status := FillBuf(buf, next, bufsiz - next, v);
      SlicesFrom(buf, was, 9, next);
      if status < 0 {
        return EINVAL;
      }
      WrittenTwice(was, 9, ds, v.ds);
      next' := next + status;
    }
  }

  lemma SlicesFrom(buf: array<Byte>, was: seq<Byte>, lo: nat, hi: nat)
    requires lo <= hi <= |was| == buf.Length
    ensures buf[..hi][..lo] == buf[..lo]
  {
  }

  lemma NoFunctions(c: Config, speed: Speed)
    ensures [] + Elements(c.descriptors) == Elements(c.descriptors) + FunctionDescs(c.functions[..0], speed)
  {
  }

  lemma BodyIs(c: Config, speed: Speed)
    ensures Body(c, speed) == Elements(c.descriptors) + FunctionDescs(c.functions, speed)
  {
  }

  // The descriptors up to the k-th function are no longer than all of them.
  lemma BodyFits(c: Config, speed: Speed, k: nat)
    requires k <= |c.functions|
    ensures |Flatten(Elements(c.descriptors) + FunctionDescs(c.functions[..k], speed))| <= |Flatten(Body(c, speed))|
    ensures |Flatten(Elements(c.descriptors))| <= |Flatten(Body(c, speed))|
    decreases |c.functions| - k
  {
    FlattenConcat(Elements(c.descriptors), FunctionDescs(c.functions, speed));
    if k == |c.functions| {
      assert c.functions[..k] == c.functions;
    } else {
      BodyFits(c, speed, k + 1);
      FunctionsMore(c, speed, k);
      FlattenConcat(Elements(c.descriptors) + FunctionDescs(c.functions[..k], speed), Elements(ForSpeed(c.functions[k], speed)));
    }
  }

  lemma FunctionsMore(c: Config, speed: Speed, k: nat)
    requires k < |c.functions|
    ensures Elements(c.descriptors) + FunctionDescs(c.functions[..k + 1], speed)
         == Elements(c.descriptors) + FunctionDescs(c.functions[..k], speed) + Elements(ForSpeed(c.functions[k], speed))
  {
    assert c.functions[..k + 1][..k] == c.functions[..k];
  }

  method ConfigBuf(c: Config, speed: Speed, buf: array<Byte>, kind: Byte, bufsiz: nat, draw: nat) returns (len: int)
    requires SizedConfig(c) && USB_DT_CONFIG_SIZE <= bufsiz <= buf.Length
    modifies buf
    ensures len == if TotalLength(c, speed) <= bufsiz then TotalLength(c, speed) else EINVAL
    ensures len >= 0 ==> buf[..len] == ConfigBytes(c, speed, kind, draw)
    ensures buf[bufsiz..] == old(buf[bufsiz..])
  {
    hide Flatten;
    WriteHeader(c, speed, buf, kind, draw);
    len := WriteBody(c, speed, buf, bufsiz);
    if len < 0 {
      return;
    }
    buf[2], buf[3] := (len % 256) as Byte, (len / 256 % 256) as Byte;
  }

  // ---- usb_gadget_config_buf

  function Patched(config: Desc, total: nat): Desc
    requires |config| == USB_DT_CONFIG_SIZE
  {
    [9, USB_DT_CONFIG, (total % 256) as Byte, (total / 256 % 256) as Byte] + config[4..7] + [SelfOr(config[7]), config[8]]
  }

  method GadgetConfigBuf(config: Desc, buf: array<Byte>, length: nat, desc: Vector) returns (len: int)
    requires |config| == USB_DT_CONFIG_SIZE && length <= buf.Length && SizedVector(desc)
    modifies buf
    ensures
      var total := USB_DT_CONFIG_SIZE + |Flatten(Elements(desc))|;
      && len == (if desc.Null? || length < 9 || total > length || total > 0xffff then EINVAL else total)
      && (len >= 0 ==> buf[..len] == Patched(config, total) + Flatten(desc.ds))
    ensures buf[length..] == old(buf[length..])
  {
    hide Flatten;
    if length < USB_DT_CONFIG_SIZE || desc.Null? {
      return EINVAL;
    }
    ghost var was := buf[..];
    CopyDesc(buf, 0, config);
    assert buf[length..] == was[length..];
    len := FillBuf(buf, USB_DT_CONFIG_SIZE, length - USB_DT_CONFIG_SIZE, desc);
    assert buf[length..] == was[length..];
    if len < 0 {
      return;
    }
    len := len + USB_DT_CONFIG_SIZE;
    if len > 0xffff {
      return EINVAL;
    }
    buf[0], buf[1], buf[2], buf[3] := 9, USB_DT_CONFIG, (len % 256) as Byte, (len / 256 % 256) as Byte;
    buf[7] := SelfOr(buf[7]);
  }

  // The bytes that it returns parse back, and the length field always says how many there
  // are.
  lemma GadgetConfigParses(config: Desc, ds: seq<Desc>)
    requires |config| == USB_DT_CONFIG_SIZE && AllSized(ds)
    ensures
      var total := USB_DT_CONFIG_SIZE + |Flatten(ds)|;
      var h := Patched(config, total);
      && Parse(h + Flatten(ds)) == Descs([h] + ds)
      && (total <= 0xffff ==> TotalField(h) == total)
  {
    hide Parse, Flatten, AllSized;
    var total := USB_DT_CONFIG_SIZE + |Flatten(ds)|;
    var h := Patched(config, total);
    assert total == 256 * (total / 256) + total % 256;
    FlattenFirst([h] + ds);
    SizedRest([h] + ds);
    assert ([h] + ds)[1..] == ds;
    ParseExactly(h + Flatten(ds), [h] + ds);
  }

  // ---- Choosing a configuration by index

  const USB_DT_DEVICE: nat := 1
  const USB_DT_DEVICE_QUALIFIER: nat := 6
  const USB_DT_OTHER_SPEED_CONFIG: nat := 7

  predicate Usable(c: Config, speed: Speed) {
    match speed
    case Super => c.super
    case High => c.high
    case _ => c.full
  }

  // The positions of the usable configurations, in order.
  function Positions(cs: seq<Config>, speed: Speed): (ps: seq<nat>)
    ensures forall i :: 0 <= i < |ps| ==> ps[i] < |cs|
  {
    if cs == [] then []
    else
      var n := |cs| - 1;
      Positions(cs[..n], speed) + if Usable(cs[n], speed) then [n] else []
  }

  // Each usable configuration is listed once, and the order is that of the list.
  lemma {:induction false} PositionsExactly(cs: seq<Config>, speed: Speed)
    ensures
      var ps := Positions(cs, speed);
      && (forall i, j :: 0 <= i < j < |ps| ==> ps[i] < ps[j])
      && (forall k :: 0 <= k < |cs| ==> (Usable(cs[k], speed) <==> k in ps))
    decreases |cs|
  {
    if cs != [] {
      var n := |cs| - 1;
      PositionsExactly(cs[..n], speed);
      var before, ps := Positions(cs[..n], speed), Positions(cs, speed);
      forall k | 0 <= k < |cs|
        ensures Usable(cs[k], speed) <==> k in ps
      {
        if k < n {
          assert cs[k] == cs[..n][k];
        } else if Usable(cs[n], speed) {
          assert ps[|before|] == n;
        }
      }
    }
  }

  lemma PositionsPrefix(cs: seq<Config>, speed: Speed, k: nat)
    requires k <= |cs|
    ensures |Positions(cs[..k], speed)| <= |Positions(cs, speed)|
    ensures forall i :: 0 <= i < |Positions(cs[..k], speed)| ==> Positions(cs, speed)[i] == Positions(cs[..k], speed)[i]
    decreases |cs| - k
  {
    if k == |cs| {
      assert cs[..k] == cs;
    } else {
      PositionsPrefix(cs, speed, k + 1);
      assert cs[..k + 1][..k] == cs[..k];
    }
  }

  // The speed that config_desc goes by.
  function IndexSpeed(dual: bool, speed: Speed, kind: nat): Speed {
    if speed.Super? then Super
    else if dual && (speed.High? <==> kind != USB_DT_OTHER_SPEED_CONFIG) then High
    else Unknown
  }

  // The speed that count_configs goes by.
  function CountSpeed(dual: bool, speed: Speed, kind: nat): Speed {
    if dual && speed.Super? then Super
    else if dual && (speed.High? <==> kind != USB_DT_DEVICE_QUALIFIER) then High
    else Full
  }

  // A descriptor for the current speed goes with the device descriptor, one for the other
  // speed with the device qualifier.
  predicate Matching(kind: nat, counted: nat) {
    || (kind == USB_DT_CONFIG as nat && counted == USB_DT_DEVICE)
    || (kind == USB_DT_OTHER_SPEED_CONFIG && counted == USB_DT_DEVICE_QUALIFIER)
  }

  // The two agree on every list of configurations exactly when a super-speed gadget counts
  // as dual-speed.
  lemma SpeedsAgree(dual: bool, speed: Speed, kind: nat, counted: nat)
    requires Matching(kind, counted)
    ensures (forall c: Config :: Usable(c, IndexSpeed(dual, speed, kind)) <==> Usable(c, CountSpeed(dual, speed, counted)))
            <==> (speed.Super? ==> dual)
  {
    if speed.Super? && !dual {
      var c := Config(1, 0, 0, 0, 0, Null, [], true, false, false);
      assert !Usable(c, IndexSpeed(dual, speed, kind)) && Usable(c, CountSpeed(dual, speed, counted));
    }
  }

  // Then an index selects a configuration exactly when it is below the count.
  lemma IndexBelowCount(cs: seq<Config>, dual: bool, speed: Speed, kind: nat, counted: nat)
    requires Matching(kind, counted) && (speed.Super? ==> dual)
    ensures Positions(cs, IndexSpeed(dual, speed, kind)) == Positions(cs, CountSpeed(dual, speed, counted))
    decreases |cs|
  {
    if cs != [] {
      IndexBelowCount(cs[..|cs| - 1], dual, speed, kind, counted);
    }
  }

  method ConfigDesc(cs: seq<Config>, dual: bool, gadgetSpeed: Speed, wValue: nat, buf: array<Byte>, bufsiz: nat,
                    draw: nat) returns (len: int)
    requires USB_DT_CONFIG_SIZE <= bufsiz <= buf.Length && wValue < 0x10000
    requires forall k :: 0 <= k < |cs| ==> SizedConfig(cs[k])
    modifies buf
    ensures
      var kind, index := wValue / 256, wValue % 256;
      var speed := IndexSpeed(dual, gadgetSpeed, kind);
      var ps := Positions(cs, speed);
      if index >= |ps| then len == EINVAL && buf[..] == old(buf[..])
      else
        var c := cs[ps[index]];
        && len == (if TotalLength(c, speed) <= bufsiz then TotalLength(c, speed) else EINVAL)
        && (len >= 0 ==> buf[..len] == ConfigBytes(c, speed, kind as Byte, draw))
  {
    hide SizedConfig, TotalLength, ConfigBytes;
    var kind := wValue / 256;
    var speed := Unknown;
    if gadgetSpeed.Super? {
      speed := Super;
    } else if dual {
      var hs := gadgetSpeed.High?;
      if kind == USB_DT_OTHER_SPEED_CONFIG {
        hs := !hs;
      }
      if hs {
        speed := High;
      }
    }
    var w := wValue % 256;
    for k := 0 to |cs|
      invariant w == wValue % 256 - |Positions(cs[..k], speed)| && w >= 0
      invariant buf[..] == old(buf[..])
    {
      var c := cs[k];
      assert cs[..k + 1][..k] == cs[..k];
      PositionsPrefix(cs, speed, k + 1);
      if Usable(c, speed) {
        if w == 0 {
          assert Positions(cs[..k + 1], speed)[wValue % 256] == k;
          assert Positions(cs, speed)[wValue % 256] == k;
          len := ConfigBuf(c, speed, buf, kind as Byte, bufsiz, draw);
          return;
        }
        w := w - 1;
      }
    }
    assert cs[..|cs|] == cs;
    len := EINVAL;
  }

  method CountConfigs(cs: seq<Config>, dual: bool, gadgetSpeed: Speed, kind: nat) returns (count: nat)
    ensures count == |Positions(cs, CountSpeed(dual, gadgetSpeed, kind))|
  {
    count := 0;
    var hs, ss := false, false;
    if dual {
      hs, ss := gadgetSpeed.High?, gadgetSpeed.Super?;
      if kind == USB_DT_DEVICE_QUALIFIER {
        hs := !hs;
      }
    }
    var speed := if ss then Super else if hs then High else Full;
    for k := 0 to |cs|
      invariant count == |Positions(cs[..k], speed)|
    {
      assert cs[..k + 1][..k] == cs[..k];
      if Usable(cs[k], speed) {
        count := count + 1;
      }
    }
    assert cs[..|cs|] == cs;
  }
}
