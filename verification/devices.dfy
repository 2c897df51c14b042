/**
 * Building the list of attendance terminals (device.py): turning database
 * rows into devices, and the repository's fixed list of terminal addresses
 * with repeated addresses removed.
 */
module Devices {
  import opened Text

  /** One terminal: its IP address and its display name. */
  datatype Device = Device(ip: string, name: string)

  /** A database row `(IP, DeviceName)`, of any length. */
  type Row = seq<Value>

  // ---------------------------------------------------------------------------
  // Device.sqlToModel
  // ---------------------------------------------------------------------------

  /** The device a non-empty row describes: the name falls back to the IP when missing or None. */
  function ToDevice(row: Row): (d: Device)
    requires row != []
    ensures d.ip == Str(row[0])
    ensures |row| == 1 || row[1] == PyNone ==> d.name == d.ip
    ensures |row| > 1 && row[1] != PyNone ==> d.name == Str(row[1])
  {
    var name := if |row| > 1 then row[1] else PyNone;
    Device(Str(row[0]), Str(if name == PyNone then row[0] else name))
  }

  /** The number of empty rows. */
  function CountEmpty(rows: seq<Row>): (n: nat)
    ensures n <= |rows|
  {
    if rows == [] then 0
    else CountEmpty(rows[..|rows| - 1]) + (if rows[|rows| - 1] == [] then 1 else 0)
  }

  /** The devices of the non-empty rows, in row order. */
  function RowsToDevices(rows: seq<Row>): (devices: seq<Device>)
    ensures |devices| == |rows| - CountEmpty(rows)
  {
    if rows == [] then []
    else
      var last := rows[|rows| - 1];
      RowsToDevices(rows[..|rows| - 1]) + (if last == [] then [] else [ToDevice(last)])
  }

  /** Converting two runs of rows one after the other is converting their concatenation: order is kept. */
  lemma {:induction false} RowsToDevicesAppend(a: seq<Row>, b: seq<Row>)
    ensures RowsToDevices(a + b) == RowsToDevices(a) + RowsToDevices(b)
    decreases |b|
  {
    if b == [] {
      assert a + b == a;
    } else {
      var init := b[..|b| - 1];
      assert (a + b)[..|a + b| - 1] == a + init;
      assert (a + b)[|a + b| - 1] == b[|b| - 1];
      RowsToDevicesAppend(a, init);
    }
  }

  /** The non-empty row at position `i` gives the device after those of the non-empty rows before it. */
  lemma RowsToDevicesAt(rows: seq<Row>, i: nat)
    requires i < |rows| && rows[i] != []
    ensures var before := i - CountEmpty(rows[..i]);
      before < |RowsToDevices(rows)| && RowsToDevices(rows)[before] == ToDevice(rows[i])
  {
    assert rows == rows[..i] + [rows[i]] + rows[i + 1..];
    RowsToDevicesAppend(rows[..i] + [rows[i]], rows[i + 1..]);
    assert (rows[..i] + [rows[i]])[..i] == rows[..i];
  }

  /** `Device.sqlToModel(rows)`. */
  method SqlToModel(rows: seq<Row>) returns (devices: seq<Device>)
    ensures devices == RowsToDevices(rows)
  {
    devices := [];
    for i := 0 to |rows|
      invariant devices == RowsToDevices(rows[..i])
    {
      assert rows[..i + 1][..i] == rows[..i];
      var row := rows[i];
      if row == [] {
        continue;
      }
      devices := devices + [ToDevice(row)];
    }
    assert rows[..|rows|] == rows;
  }

  // ---------------------------------------------------------------------------
  // DeviceRepository.initial_devices
  // ---------------------------------------------------------------------------

  /** The terminals' addresses as the repository lists them. */
  const StaticIps: seq<string> := [
    "192.168.3.246", "192.168.3.227", "192.168.3.231", "192.168.3.229",
    "192.168.3.243", "192.168.3.232", "192.168.3.238", "192.168.3.244",
    "192.168.3.218", "192.168.3.225", "192.168.3.241", "192.168.3.249",
    "192.168.3.251", "192.168.3.213", "192.168.3.222", "192.168.3.239",
    "192.168.3.233", "192.168.3.221", "192.168.3.226", "192.168.3.247",
    "192.168.3.245", "192.168.3.248"
  ]

  /** Each address once, at the place it first occurs. */
  function FirstOccurrences(ips: seq<string>): (r: seq<string>)
    ensures forall x :: x in r <==> x in ips
    ensures |r| <= |ips|
  {
    if ips == [] then []
    else
      var init := ips[..|ips| - 1];
      var last := ips[|ips| - 1];
      assert ips == init + [last];
      FirstOccurrences(init) + (if last in init then [] else [last])
  }

  predicate NoDuplicates(s: seq<string>)
  {
    forall i, j :: 0 <= i < j < |s| ==> s[i] != s[j]
  }

  /** No address is kept twice. */
  lemma {:induction false} FirstOccurrencesDistinct(ips: seq<string>)
    ensures NoDuplicates(FirstOccurrences(ips))
  {
    if ips != [] {
      FirstOccurrencesDistinct(ips[..|ips| - 1]);
    }
  }

  /** Reading more addresses only appends: what the first `k` addresses give is a prefix of the whole result. */
  lemma {:induction false} FirstOccurrencesPrefix(ips: seq<string>, k: nat)
    requires k <= |ips|
    ensures FirstOccurrences(ips[..k]) <= FirstOccurrences(ips)
    decreases |ips|
  {
    if k < |ips| {
      var init := ips[..|ips| - 1];
      assert init[..k] == ips[..k];
      FirstOccurrencesPrefix(init, k);
    } else {
      assert ips[..k] == ips;
    }
  }

  /** A list without repeats comes through unchanged. */
  lemma {:induction false} FirstOccurrencesOfDistinct(ips: seq<string>)
    requires NoDuplicates(ips)
    ensures FirstOccurrences(ips) == ips
  {
    if ips != [] {
      var init := ips[..|ips| - 1];
      assert NoDuplicates(init);
      FirstOccurrencesOfDistinct(init);
      assert ips[|ips| - 1] !in init;
      assert ips == init + [ips[|ips| - 1]];
    }
  }

  /** The device kept for an address is named after the address. */
  function AsDevices(ips: seq<string>): (devices: seq<Device>)
    ensures |devices| == |ips|
    ensures forall i :: 0 <= i < |ips| ==> devices[i].ip == ips[i] && devices[i].name == ips[i]
  {
    seq(|ips|, i requires 0 <= i < |ips| => Device(ips[i], ips[i]))
  }

  /** The repository of terminals. */
  class DeviceRepository {
    var deviceInfo: seq<Device>

    constructor ()
      ensures deviceInfo == []
    {
      deviceInfo := [];
    }

    /** `initial_devices()`: loads the fixed address list without repeats, stores the devices and returns them. */
    method InitialDevices() returns (devices: seq<Device>)
      modifies this
      ensures devices == AsDevices(FirstOccurrences(StaticIps))
      ensures devices == AsDevices(StaticIps)
      ensures deviceInfo == devices
    {
      devices := DedupDevices(StaticIps);
      StaticIpsLoadedInOrder();
      deviceInfo := devices;
    }
  }

  /** The loop of `initial_devices`: each address is kept, as a device named after it, the first time it is met. */
  method DedupDevices(ips: seq<string>) returns (devices: seq<Device>)
    ensures devices == AsDevices(FirstOccurrences(ips))
  {
    var seen: set<string> := {};
    devices := [];
    for i := 0 to |ips|
      invariant forall x :: x in seen <==> x in ips[..i]
      invariant devices == AsDevices(FirstOccurrences(ips[..i]))
    {
      var ip := ips[i];
      DedupStep(ips, i);
      if ip in seen {
        continue;
      }
      seen := seen + {ip};
      devices := devices + [Device(ip, ip)];
    }
    assert ips[..|ips|] == ips;
  }

  /** One more address: it is appended, as a device, exactly when it was not met before. */
  lemma DedupStep(ips: seq<string>, i: nat)
    requires i < |ips|
    ensures forall x :: x in ips[..i + 1] <==> x in ips[..i] || x == ips[i]
    ensures ips[i] in ips[..i] ==> FirstOccurrences(ips[..i + 1]) == FirstOccurrences(ips[..i])
    ensures ips[i] !in ips[..i] ==>
      AsDevices(FirstOccurrences(ips[..i + 1])) == AsDevices(FirstOccurrences(ips[..i])) + [Device(ips[i], ips[i])]
  {
    assert ips[..i + 1] == ips[..i] + [ips[i]];
    assert ips[..i + 1][..i] == ips[..i];
  }

  /** The fixed list has no repeated address, so every terminal in it is loaded, in list order. */
  lemma StaticIpsLoadedInOrder()
    ensures FirstOccurrences(StaticIps) == StaticIps
  {
    StaticIpsDistinct();
    FirstOccurrencesOfDistinct(StaticIps);
  }

  lemma StaticIpsDistinct()
    ensures NoDuplicates(StaticIps)
  {
    forall i, j | 0 <= i < j < |StaticIps|
      ensures StaticIps[i] != StaticIps[j]
    {
      assert StaticIps[i][11..] != StaticIps[j][11..];
    }
  }
}
