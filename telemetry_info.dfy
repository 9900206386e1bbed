/** The bus-device summaries of TelemetryInfo: the space-separated list of
    wireless drivers and the space-separated vendor:device identifiers of the
    devices of one class. */
module Telemetry {
  import opened Wrappers
  import opened Strings
  import opened Encoding

  /** The device classes the builders select on; every other class keeps its
      own code in OtherClass, so distinct classes stay distinct. */
  datatype BusDeviceClass = DisplayController | WirelessController | OtherClass(code: nat)

  /** The tagged union of per-bus information; OtherBusInfo stands for any
      alternative that is neither PCI nor USB. */
  datatype BusTypeInfo =
    | PciBusInfo(vendorId: nat, deviceId: nat, driver: string)
    | UsbBusInfo(vendorId: nat, productId: nat)
    | OtherBusInfo

  datatype BusDevice = BusDevice(deviceClass: BusDeviceClass, busTypeInfo: BusTypeInfo)

  datatype TelemetryInfo = TelemetryInfo(busDevices: seq<BusDevice>)

  /** How an identifier field sits in memory: its size in bytes and the byte order. */
  datatype IdLayout = IdLayout(width: nat, order: ByteOrder)

  // ---------------------------------------------------------------------------
  // Specification: an order-preserving filter-map over the device list
  // ---------------------------------------------------------------------------

  function Emit<T>(o: Option<T>): seq<T>
  {
    if o.Some? then [o.value] else []
  }

  /** What `f` yields for each device, in device order, skipping devices it
      yields nothing for. */
  function Collect<T>(devices: seq<BusDevice>, f: BusDevice -> Option<T>): seq<T>
  {
    if devices == [] then []
    else Collect(devices[..|devices| - 1], f) + Emit(f(devices[|devices| - 1]))
  }

  /** The indices of the devices `f` yields something for, in increasing order. */
  function MatchIndices<T>(devices: seq<BusDevice>, f: BusDevice -> Option<T>): seq<nat>
  {
    if devices == [] then []
    else
      var n := |devices| - 1;
      MatchIndices(devices[..n], f) + (if f(devices[n]).Some? then [n] else [])
  }

  /** Collect keeps exactly the devices `f` accepts, in their order: the k-th
      result comes from the k-th accepted device, and accepted devices are
      listed by increasing index. */
  lemma {:induction false} CollectSelects<T>(devices: seq<BusDevice>, f: BusDevice -> Option<T>)
    ensures |Collect(devices, f)| == |MatchIndices(devices, f)|
    ensures forall k :: 0 <= k < |MatchIndices(devices, f)| ==>
      MatchIndices(devices, f)[k] < |devices| &&
      f(devices[MatchIndices(devices, f)[k]]) == Some(Collect(devices, f)[k])
    ensures forall k, l :: 0 <= k < l < |MatchIndices(devices, f)| ==>
      MatchIndices(devices, f)[k] < MatchIndices(devices, f)[l]
    ensures forall i :: 0 <= i < |devices| ==> (i in MatchIndices(devices, f) <==> f(devices[i]).Some?)
  {
    if devices != [] {
      var n := |devices| - 1;
      var prefix := devices[..n];
      CollectSelects(prefix, f);
      var idx, out := MatchIndices(devices, f), Collect(devices, f);
      var pidx, pout := MatchIndices(prefix, f), Collect(prefix, f);
      forall k | 0 <= k < |idx|
        ensures idx[k] < |devices| && f(devices[idx[k]]) == Some(out[k])
      {
        if k < |pidx| {
          assert idx[k] == pidx[k] && out[k] == pout[k];
          assert devices[idx[k]] == prefix[pidx[k]];
        }
      }
      forall i | 0 <= i < |devices|
        ensures i in idx <==> f(devices[i]).Some?
      {
        if i < n {
          assert devices[i] == prefix[i];
          assert i in pidx <==> i in idx;
        }
      }
    }
  }

  // ---------------------------------------------------------------------------
  // Wireless drivers (common/telemetry_info.cc:24-38)
  // ---------------------------------------------------------------------------

  /** The driver a device contributes: only a PCI wireless controller, and only
      when its driver is named. */
  function WirelessDriver(d: BusDevice): (r: Option<string>)
    ensures r.Some? <==>
      d.deviceClass == WirelessController && d.busTypeInfo.PciBusInfo? && d.busTypeInfo.driver != ""
    ensures r.Some? ==> r.value == d.busTypeInfo.driver && r.value != ""
  {
    if d.deviceClass != WirelessController then None
    else if d.busTypeInfo.PciBusInfo? && d.busTypeInfo.driver != "" then Some(d.busTypeInfo.driver)
    else None
  }

  function WirelessDriverList(devices: seq<BusDevice>): seq<string>
  {
    Collect(devices, WirelessDriver)
  }

  /** TelemetryInfo::GetWirelessDrivers. */
  method GetWirelessDrivers(info: TelemetryInfo) returns (s: string)
    ensures s == Join(WirelessDriverList(info.busDevices), " ")
  {
    var devices := info.busDevices;
    var wirelessDrivers: seq<string> := [];
    for i := 0 to |devices|
      invariant wirelessDrivers == Collect(devices[..i], WirelessDriver)
    {
      var busDevice := devices[i];
      assert devices[..i + 1][..i] == devices[..i];
      if busDevice.deviceClass != WirelessController {
        continue;
      }
      if busDevice.busTypeInfo.PciBusInfo? {
        var driver := busDevice.busTypeInfo.driver;
        if driver != "" {
          wirelessDrivers := wirelessDrivers + [driver];
        }
      }
    }
    assert devices[..|devices|] == devices;
    s := Join(wirelessDrivers, " ");
  }

  /** The driver list holds, in device order, the named drivers of exactly the
      PCI wireless controllers; devices of another class, USB devices and
      devices without a driver contribute nothing. */
  lemma WirelessDriversSelected(devices: seq<BusDevice>)
    ensures var idx, out := MatchIndices(devices, WirelessDriver), WirelessDriverList(devices);
      && |out| == |idx|
      && (forall k :: 0 <= k < |idx| ==>
            idx[k] < |devices| &&
            devices[idx[k]].deviceClass == WirelessController &&
            devices[idx[k]].busTypeInfo.PciBusInfo? &&
            out[k] == devices[idx[k]].busTypeInfo.driver && out[k] != "")
      && (forall k, l :: 0 <= k < l < |idx| ==> idx[k] < idx[l])
      && (forall i :: 0 <= i < |devices| ==>
            (i in idx <==>
               devices[i].deviceClass == WirelessController &&
               devices[i].busTypeInfo.PciBusInfo? && devices[i].busTypeInfo.driver != ""))
  {
    CollectSelects(devices, WirelessDriver);
  }

  /** A USB device never contributes a driver, even when it is a wireless controller. */
  lemma UsbContributesNoDriver(devices: seq<BusDevice>, i: nat)
    requires i < |devices| && devices[i].busTypeInfo.UsbBusInfo?
    ensures i !in MatchIndices(devices, WirelessDriver)
  {
    WirelessDriversSelected(devices);
  }

  /** When no driver contains a space, the tokens of the joined driver string
      are exactly the contributed drivers, one per contributing device, none
      empty; and the string is empty exactly when no device contributes. */
  lemma WirelessDriversTokens(devices: seq<BusDevice>)
    requires forall i :: 0 <= i < |devices| && WirelessDriver(devices[i]).Some? ==>
      ' ' !in WirelessDriver(devices[i]).value
    ensures Tokens(Join(WirelessDriverList(devices), " ")) == WirelessDriverList(devices)
    ensures |Tokens(Join(WirelessDriverList(devices), " "))| == |MatchIndices(devices, WirelessDriver)|
  {
    var out := WirelessDriverList(devices);
    CollectSelects(devices, WirelessDriver);
    assert CleanParts(out, ' ');
    TokensJoin(out);
  }

  /** The driver string is empty exactly when no device contributes a driver. */
  lemma WirelessDriversEmptyIff(devices: seq<BusDevice>)
    ensures Join(WirelessDriverList(devices), " ") == "" <==>
      forall i :: 0 <= i < |devices| ==> WirelessDriver(devices[i]) == None
  {
    var out, idx := WirelessDriverList(devices), MatchIndices(devices, WirelessDriver);
    CollectSelects(devices, WirelessDriver);
    JoinEmptyIff(out, " ");
    if out != [] {
      assert idx[0] in idx;
    }
  }

  // ---------------------------------------------------------------------------
  // Bus-device identifiers (common/telemetry_info.cc:40-77)
  // ---------------------------------------------------------------------------

  /** base::JoinString({HexEncode(first), HexEncode(second)}, ":") over the
      memory images of the two identifier fields. */
  function FormatId(first: nat, second: nat, layout: IdLayout): (r: string)
    ensures |r| == 4 * layout.width + 1 && r[2 * layout.width] == ':'
  {
    var hi := HexEncode(IntBytes(first, layout.width, layout.order));
    var lo := HexEncode(IntBytes(second, layout.width, layout.order));
    assert Join([hi, lo], ":") == hi + ":" + lo by {
      assert [hi, lo][1..] == [lo] && Join([lo], ":") == lo;
    }
    Join([hi, lo], ":")
  }

  /** The two identifiers a device reports: vendor and device for PCI, vendor
      and product for USB. */
  function IdPair(info: BusTypeInfo): Option<(nat, nat)>
  {
    match info
    case PciBusInfo(vendorId, deviceId, _) => Some((vendorId, deviceId))
    case UsbBusInfo(vendorId, productId) => Some((vendorId, productId))
    case OtherBusInfo => None
  }

  /** The token a device contributes to the identifiers of `busDeviceClass`. */
  function IdToken(d: BusDevice, busDeviceClass: BusDeviceClass, layout: IdLayout): (r: Option<string>)
    ensures r.Some? <==> d.deviceClass == busDeviceClass && !d.busTypeInfo.OtherBusInfo?
    ensures r.Some? ==> |r.value| == 4 * layout.width + 1
  {
    if d.deviceClass != busDeviceClass then None
    else
      match IdPair(d.busTypeInfo)
      case Some((first, second)) => Some(FormatId(first, second, layout))
      case None => None
  }

  /** The selector GetBusDeviceIds applies to each device. */
  function IdSelector(busDeviceClass: BusDeviceClass, layout: IdLayout): BusDevice -> Option<string>
  {
    d => IdToken(d, busDeviceClass, layout)
  }

  function BusDeviceIdList(devices: seq<BusDevice>, busDeviceClass: BusDeviceClass, layout: IdLayout): seq<string>
  {
    Collect(devices, IdSelector(busDeviceClass, layout))
  }

  /** TelemetryInfo::GetBusDeviceIds. The layout of the identifier fields is
      a parameter; in the source it is fixed by the field types. */
  method GetBusDeviceIds(info: TelemetryInfo, busDeviceClass: BusDeviceClass, layout: IdLayout)
    returns (s: string)
    ensures s == Join(BusDeviceIdList(info.busDevices, busDeviceClass, layout), " ")
  {
    var devices := info.busDevices;
    ghost var f := IdSelector(busDeviceClass, layout);
    var ids: seq<string> := [];
    for i := 0 to |devices|
      invariant ids == Collect(devices[..i], f)
    {
      var busDevice := devices[i];
      assert devices[..i + 1][..i] == devices[..i];
      if busDevice.deviceClass != busDeviceClass {
        continue;
      }
      match busDevice.busTypeInfo {
        case PciBusInfo(vendorId, deviceId, _) =>
          assert f(busDevice) == Some(FormatId(vendorId, deviceId, layout));
          ids := ids + [FormatId(vendorId, deviceId, layout)];
        case UsbBusInfo(vendorId, productId) =>
          assert f(busDevice) == Some(FormatId(vendorId, productId, layout));
          ids := ids + [FormatId(vendorId, productId, layout)];
        case OtherBusInfo =>
      }
    }
    assert devices[..|devices|] == devices;
    s := Join(ids, " ");
  }

  /** TelemetryInfo::GetWirelessIds: the identifiers of the wireless controllers. */
  method GetWirelessIds(info: TelemetryInfo, layout: IdLayout) returns (s: string)
    ensures s == Join(BusDeviceIdList(info.busDevices, WirelessController, layout), " ")
  {
    s := GetBusDeviceIds(info, WirelessController, layout);
  }

  /** TelemetryInfo::GetGpuIds: the identifiers of the display controllers. */
  method GetGpuIds(info: TelemetryInfo, layout: IdLayout) returns (s: string)
    ensures s == Join(BusDeviceIdList(info.busDevices, DisplayController, layout), " ")
  {
    s := GetBusDeviceIds(info, DisplayController, layout);
  }

  /** Reads an identifier token back: two hexadecimal memory images of
      `layout.width` bytes separated by one colon. */
  function ParseId(token: string, layout: IdLayout): Option<(nat, nat)>
  {
    var pieces := SplitOn(token, ':');
    if |pieces| != 2 then None
    else
      match (HexDecode(pieces[0]), HexDecode(pieces[1]))
      case (Some(first), Some(second)) =>
        if |first| == layout.width && |second| == layout.width
        then Some((BytesValue(first, layout.order), BytesValue(second, layout.order)))
        else None
      case _ => None
  }

  /** A formatted identifier is one colon-separated pair of hexadecimal
      numbers: non-empty, without spaces, and it reads back as the pair of
      identifiers when they fit the field width. */
  lemma FormatIdRoundTrip(first: nat, second: nat, layout: IdLayout)
    ensures var t := FormatId(first, second, layout); t != "" && ' ' !in t
    ensures Fits(first, layout.width) && Fits(second, layout.width) ==>
      ParseId(FormatId(first, second, layout), layout) == Some((first, second))
  {
    var a := HexEncode(IntBytes(first, layout.width, layout.order));
    var b := HexEncode(IntBytes(second, layout.width, layout.order));
    HexEncodeDigits(IntBytes(first, layout.width, layout.order));
    HexEncodeDigits(IntBytes(second, layout.width, layout.order));
    var t := FormatId(first, second, layout);
    assert [a, b][1..] == [b] && Join([b], ":") == b;
    assert t == a + ":" + b;
    assert t[|a|] == ':';
    assert ' ' !in t by {
      forall i | 0 <= i < |t| ensures t[i] != ' ' {
        if i < |a| { assert t[i] == a[i]; }
        else if i > |a| { assert t[i] == b[i - |a| - 1]; }
      }
    }
    SplitJoin([a, b], ':');
    HexRoundTrip(IntBytes(first, layout.width, layout.order));
    HexRoundTrip(IntBytes(second, layout.width, layout.order));
    if Fits(first, layout.width) && Fits(second, layout.width) {
      IntBytesRoundTrip(first, layout.width, layout.order);
      IntBytesRoundTrip(second, layout.width, layout.order);
    }
  }

  /** The identifier list holds one token per device of the requested class
      on a PCI or USB bus, in device order, each the formatted vendor and
      device (PCI) or product (USB) identifiers; devices of another class or
      on another bus contribute nothing. */
  lemma BusDeviceIdsSelected(devices: seq<BusDevice>, busDeviceClass: BusDeviceClass, layout: IdLayout)
    ensures var idx, out := MatchIndices(devices, IdSelector(busDeviceClass, layout)),
                            BusDeviceIdList(devices, busDeviceClass, layout);
      && |out| == |idx|
      && (forall k :: 0 <= k < |idx| ==>
            idx[k] < |devices| &&
            devices[idx[k]].deviceClass == busDeviceClass &&
            IdPair(devices[idx[k]].busTypeInfo).Some? &&
            out[k] == FormatId(IdPair(devices[idx[k]].busTypeInfo).value.0,
                               IdPair(devices[idx[k]].busTypeInfo).value.1, layout))
      && (forall k, l :: 0 <= k < l < |idx| ==> idx[k] < idx[l])
      && (forall i :: 0 <= i < |devices| ==>
            (i in idx <==> devices[i].deviceClass == busDeviceClass && !devices[i].busTypeInfo.OtherBusInfo?))
  {
    CollectSelects(devices, IdSelector(busDeviceClass, layout));
  }

  /** The identifier string splits into exactly the listed tokens, one per
      selected device, and it is empty exactly when no device is selected. */
  lemma BusDeviceIdsTokens(devices: seq<BusDevice>, busDeviceClass: BusDeviceClass, layout: IdLayout)
    ensures Tokens(Join(BusDeviceIdList(devices, busDeviceClass, layout), " ")) ==
      BusDeviceIdList(devices, busDeviceClass, layout)
    ensures |BusDeviceIdList(devices, busDeviceClass, layout)| ==
      |MatchIndices(devices, IdSelector(busDeviceClass, layout))|
    ensures Join(BusDeviceIdList(devices, busDeviceClass, layout), " ") == "" <==>
      forall i :: 0 <= i < |devices| ==> IdToken(devices[i], busDeviceClass, layout) == None
  {
    var out := BusDeviceIdList(devices, busDeviceClass, layout);
    var idx := MatchIndices(devices, IdSelector(busDeviceClass, layout));
    BusDeviceIdsSelected(devices, busDeviceClass, layout);
    forall k | 0 <= k < |out| ensures out[k] != "" && ' ' !in out[k] {
      var pair := IdPair(devices[idx[k]].busTypeInfo).value;
      FormatIdRoundTrip(pair.0, pair.1, layout);
    }
    assert CleanParts(out, ' ');
    TokensJoin(out);
    JoinEmptyIff(out, " ");
    CollectSelects(devices, IdSelector(busDeviceClass, layout));
  }

  /** Each token of the identifier string reads back as the identifiers of the
      device it came from, when they fit the field width. */
  lemma BusDeviceIdsRoundTrip(devices: seq<BusDevice>, busDeviceClass: BusDeviceClass, layout: IdLayout, k: nat)
    requires k < |MatchIndices(devices, IdSelector(busDeviceClass, layout))|
    ensures var i := MatchIndices(devices, IdSelector(busDeviceClass, layout))[k];
      var toks := Tokens(Join(BusDeviceIdList(devices, busDeviceClass, layout), " "));
      && i < |devices| && k < |toks|
      && IdPair(devices[i].busTypeInfo).Some?
      && (Fits(IdPair(devices[i].busTypeInfo).value.0, layout.width) &&
          Fits(IdPair(devices[i].busTypeInfo).value.1, layout.width) ==>
            ParseId(toks[k], layout) == IdPair(devices[i].busTypeInfo))
  {
    BusDeviceIdsSelected(devices, busDeviceClass, layout);
    BusDeviceIdsTokens(devices, busDeviceClass, layout);
    var i := MatchIndices(devices, IdSelector(busDeviceClass, layout))[k];
    var pair := IdPair(devices[i].busTypeInfo).value;
    FormatIdRoundTrip(pair.0, pair.1, layout);
  }
}
