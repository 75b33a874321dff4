/** The device-listing response (hosts holding device lists) and the two folds
    `main` runs over it for the GetDevices action: the device count and the
    numbered table rows. */
module Devices {

  /** A decoded timestamp; its calendar arithmetic and RFC 3339 rendering
      belong to Go's time library and are kept opaque. */
  datatype Instant = Instant(unixNanos: int)

  /** A loosely typed JSON value (`any` in the source). */
  datatype JsonValue =
    | JsonNull
    | JsonBool(b: bool)
    | JsonNumber(literal: string)
    | JsonString(s: string)
    | JsonArray(items: seq<JsonValue>)
    | JsonObject(members: seq<(string, JsonValue)>)

  datatype Images = Images(defaultImage: string, nopadding: string, topology: string)

  /** Vendor icon metadata of a device. */
  datatype Uidb = Uidb(guid: string, iconId: string, id: string, images: Images)

  datatype Device = Device(
    id: string,
    mac: string,
    name: string,
    model: string,
    shortname: string,
    ip: string,
    productLine: string,
    status: string,
    version: string,
    firmwareStatus: string,
    updateAvailable: JsonValue,
    isConsole: bool,
    isManaged: bool,
    startupTime: Instant,
    adoptionTime: Instant,
    note: JsonValue,
    uidb: Uidb)

  datatype HostGroup = HostGroup(hostId: string, hostName: string, devices: seq<Device>, updatedAt: Instant)

  /** The whole decoded body of the device-listing endpoint. */
  datatype V1Devices = V1Devices(data: seq<HostGroup>, httpStatusCode: int, traceId: string)

  /** One table row: a 1-based running number and the printed device fields. */
  datatype Row = Row(
    index: nat,
    mac: string,
    name: string,
    model: string,
    ip: string,
    status: string,
    version: string,
    firmware: string,
    managed: bool,
    startupTime: Instant)

  /** The header row of the device table, in column order. */
  const TableHeader: seq<string> :=
    ["#", "MAC", "Name", "Model", "IP", "Status", "Version", "Firmware", "Mngd", "Startup Time"]

  function RowOf(index: nat, d: Device): Row
  {
    Row(index, d.mac, d.name, d.model, d.ip, d.status, d.version, d.firmwareStatus, d.isManaged, d.startupTime)
  }

  /** Every device, host by host and in list order within a host. */
  function AllDevices(hosts: seq<HostGroup>): seq<Device>
  {
    if |hosts| == 0 then [] else hosts[0].devices + AllDevices(hosts[1..])
  }

  /** The sum of the device-list lengths over all host groups: the number of
      devices in the host-then-device flattening. */
  function DeviceCount(hosts: seq<HostGroup>): (n: nat)
    ensures n == |AllDevices(hosts)|
  {
    if |hosts| == 0 then 0 else |hosts[0].devices| + DeviceCount(hosts[1..])
  }

  /** The count is at least the length of every single list, and zero only
      when every list is empty. */
  lemma {:induction false} DeviceCountBounds(hosts: seq<HostGroup>)
    ensures forall i :: 0 <= i < |hosts| ==> |hosts[i].devices| <= DeviceCount(hosts)
    ensures DeviceCount(hosts) == 0 <==> forall i :: 0 <= i < |hosts| ==> |hosts[i].devices| == 0
  {
    if |hosts| > 0 {
      DeviceCountBounds(hosts[1..]);
      assert forall i :: 1 <= i < |hosts| ==> hosts[i] == hosts[1..][i - 1];
    }
  }

  lemma {:induction false} DeviceCountAppend(a: seq<HostGroup>, b: seq<HostGroup>)
    ensures DeviceCount(a + b) == DeviceCount(a) + DeviceCount(b)
  {
    if |a| > 0 {
      assert (a + b)[1..] == a[1..] + b;
      DeviceCountAppend(a[1..], b);
    } else {
      assert a + b == b;
    }
  }

  lemma {:induction false} AllDevicesAppend(a: seq<HostGroup>, b: seq<HostGroup>)
    ensures AllDevices(a + b) == AllDevices(a) + AllDevices(b)
  {
    if |a| > 0 {
      assert (a + b)[1..] == a[1..] + b;
      AllDevicesAppend(a[1..], b);
    } else {
      assert a + b == b;
    }
  }

  /** One more host in the prefix adds its list length to the count. */
  lemma CountPrefixStep(hosts: seq<HostGroup>, h: nat)
    requires h < |hosts|
    ensures DeviceCount(hosts[..h + 1]) == DeviceCount(hosts[..h]) + |hosts[h].devices|
  {
    DeviceCountAppend(hosts[..h], [hosts[h]]);
    assert hosts[..h + 1] == hosts[..h] + [hosts[h]];
  }

  /** One more host in the prefix appends its devices to the flattening. */
  lemma DevicesPrefixStep(hosts: seq<HostGroup>, h: nat)
    requires h < |hosts|
    ensures AllDevices(hosts[..h + 1]) == AllDevices(hosts[..h]) + hosts[h].devices
  {
    AllDevicesAppend(hosts[..h], [hosts[h]]);
    assert hosts[..h + 1] == hosts[..h] + [hosts[h]];
    assert AllDevices([hosts[h]]) == hosts[h].devices + AllDevices([hosts[h]][1..]);
  }

  /** The table body: the k-th device in host-then-device order on row k + 1,
      so the rows are numbered 1..total and the last number is the total. */
  function DeviceRows(hosts: seq<HostGroup>): (rows: seq<Row>)
    ensures |rows| == DeviceCount(hosts)
    ensures forall k :: 0 <= k < |rows| ==> rows[k] == RowOf(k + 1, AllDevices(hosts)[k])
    ensures |rows| > 0 ==> rows[|rows| - 1].index == DeviceCount(hosts)
  {
    var ds := AllDevices(hosts);
    seq(|ds|, k requires 0 <= k < |ds| => RowOf(k + 1, ds[k]))
  }

  /** The counting loop of the GetDevices branch: the list lengths summed
      host by host. */
  method CountDevices(hosts: seq<HostGroup>) returns (total: nat)
    ensures total == DeviceCount(hosts)
  {
    total := 0;
    var h := 0;
    while h < |hosts|
      invariant 0 <= h <= |hosts|
      invariant total == DeviceCount(hosts[..h])
    {
      CountPrefixStep(hosts, h);
      total := total + |hosts[h].devices|;
      h := h + 1;
    }
    assert hosts[..h] == hosts;
  }

  /** The inner loop of the table: the devices of one host, appended to the
      rows so far and numbered on from them. */
  method EmitRows(start: seq<Row>, devices: seq<Device>) returns (rows: seq<Row>)
    ensures |rows| == |start| + |devices|
    ensures rows[..|start|] == start
    ensures forall k :: 0 <= k < |devices| ==> rows[|start| + k] == RowOf(|start| + k + 1, devices[k])
  {
    rows := start;
    var deviceIndex := |start| + 1;
    var d := 0;
    while d < |devices|
      invariant 0 <= d <= |devices|
      invariant deviceIndex == |rows| + 1
      invariant |rows| == |start| + d
      invariant rows[..|start|] == start
      invariant forall k :: 0 <= k < d ==> rows[|start| + k] == RowOf(|start| + k + 1, devices[k])
    {
      rows := rows + [RowOf(deviceIndex, devices[d])];
      deviceIndex := deviceIndex + 1;
      d := d + 1;
    }
  }

  /** The nested host/device loop of the GetDevices branch: one row per
      device, numbered by a running counter that starts at 1. */
  method NumberRows(hosts: seq<HostGroup>) returns (rows: seq<Row>)
    ensures rows == DeviceRows(hosts)
  {
    rows := [];
    var h := 0;
    while h < |hosts|
      invariant 0 <= h <= |hosts|
      invariant |rows| == |AllDevices(hosts[..h])|
      invariant forall k :: 0 <= k < |rows| ==> rows[k] == RowOf(k + 1, AllDevices(hosts[..h])[k])
    {
      ghost var before := AllDevices(hosts[..h]);
      ghost var prev := rows;
      rows := EmitRows(rows, hosts[h].devices);
      DevicesPrefixStep(hosts, h);
      assert forall k :: 0 <= k < |prev| ==> rows[k] == rows[..|prev|][k];
      h := h + 1;
    }
    assert hosts[..h] == hosts;
  }

  /** The GetDevices branch: first the count, then the numbered rows. */
  method TabulateDevices(hosts: seq<HostGroup>) returns (total: nat, rows: seq<Row>)
    ensures total == DeviceCount(hosts)
    ensures rows == DeviceRows(hosts)
  {
    total := CountDevices(hosts);
    rows := NumberRows(hosts);
  }
}
