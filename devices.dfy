/**
 * get_devices of the data-frame analyser: the devices table built from
 * participants_df grouped by device address.
 */
module DeviceTable {
  import opened Wrappers
  import opened Text
  import opened Seqs
  import opened Groups
  import opened Frames

  /** A row of devices_df. */
  datatype DeviceRow = DeviceRow(ip: string, name: Option<string>)

  function IpOf(): ParticipantRow -> Option<string>
  {
    (p: ParticipantRow) => Some(p.deviceIp)
  }

  /** Some participant row is at address ip. */
  predicate Occurs(participants: seq<ParticipantRow>, ip: string)
  {
    exists p :: p in participants && p.deviceIp == ip
  }

  /** The device_ip group keys: every address of the participants once, ascending. */
  function DeviceIps(participants: seq<ParticipantRow>): (ips: seq<string>)
    ensures forall ip :: ip in ips <==> Occurs(participants, ip)
  {
    var ips := GroupKeys(participants, IpOf());
    assert forall ip :: (exists p :: p in participants && IpOf()(p) == Some(ip)) <==> exists p :: p in participants && p.deviceIp == ip;
    ips
  }

  /** The addresses come once each, in ascending order. */
  lemma DeviceIpsOrdered(participants: seq<ParticipantRow>)
    ensures Distinct(DeviceIps(participants))
    ensures forall i, j :: 0 <= i < j < |DeviceIps(participants)| ==> LexLe(DeviceIps(participants)[i], DeviceIps(participants)[j])
  {
  }

  /** The participant rows at one address, in frame order. */
  function DeviceGroup(participants: seq<ParticipantRow>, ip: string): (g: seq<ParticipantRow>)
    ensures forall p :: p in g <==> p in participants && p.deviceIp == ip
  {
    Group(participants, IpOf(), ip)
  }

  /** The row for one device: its address and the device name of its first participant row. */
  function DeviceOf(participants: seq<ParticipantRow>, ip: string): (d: DeviceRow)
    requires Occurs(participants, ip)
    ensures d.ip == ip
  {
    GroupOccupied(participants, ip);
    DeviceRow(ip, DeviceGroup(participants, ip)[0].deviceName)
  }

  lemma GroupOccupied(participants: seq<ParticipantRow>, ip: string)
    requires Occurs(participants, ip)
    ensures DeviceGroup(participants, ip) != []
  {
    var p :| p in participants && p.deviceIp == ip;
    assert p in DeviceGroup(participants, ip);
  }

  /** The body of get_devices' loop: the group at one address and its first row. */
  method NewRow(participants: seq<ParticipantRow>, ip: string) returns (row: DeviceRow)
    requires Occurs(participants, ip)
    ensures row == DeviceOf(participants, ip)
  {
    GroupOccupied(participants, ip);
    var group := DeviceGroup(participants, ip);
    var firstRow := group[0];
    row := DeviceRow(ip, firstRow.deviceName);
  }

  /** Every key of the list is the address of some participant row. */
  predicate AllOccur(participants: seq<ParticipantRow>, keys: seq<string>)
  {
    forall k :: k in keys ==> Occurs(participants, k)
  }

  lemma IpsOccur(participants: seq<ParticipantRow>)
    ensures AllOccur(participants, DeviceIps(participants))
  {
  }

  /** A frame with rows has at least one device_ip group. */
  lemma RowsHaveIps(participants: seq<ParticipantRow>)
    ensures participants != [] ==> DeviceIps(participants) != []
  {
    if participants != [] {
      assert participants[0].deviceIp in DeviceIps(participants);
    }
  }

  /** What new_row holds after the loop over the given groups: nothing before the first, then the last group's row. */
  function LastRow(participants: seq<ParticipantRow>, keys: seq<string>): Option<DeviceRow>
    requires AllOccur(participants, keys)
  {
    if keys == [] then None else Some(DeviceOf(participants, keys[|keys| - 1]))
  }

  /** The loop of get_devices as written: each group's row overwrites new_row. */
  method ScanDevices(participants: seq<ParticipantRow>, keys: seq<string>) returns (newRow: Option<DeviceRow>)
    requires AllOccur(participants, keys)
    ensures newRow == LastRow(participants, keys)
  {
    newRow := None;
    var i := 0;
    while i < |keys|
      invariant 0 <= i <= |keys|
      invariant newRow == LastRow(participants, keys[..i])
    {
      var row := NewRow(participants, keys[i]);
      newRow := Some(row);
      i := i + 1;
    }
    assert keys[..i] == keys;
  }

  /**
   * get_devices as written: new_row is rebuilt for every device_ip group,
   * but only the last one is appended, after the loop; with no participant
   * rows new_row is never bound.
   */
  method GetDevices(participants: seq<ParticipantRow>, devices: seq<DeviceRow>) returns (r: Result<seq<DeviceRow>, Fault>)
    ensures r.Failure? <==> participants == []
    ensures r.Failure? ==> r.error == NoParticipantRows
    ensures r.Success? ==> r.value == devices + [LastRow(participants, DeviceIps(participants)).value]
  {
    var keys := DeviceIps(participants);
    IpsOccur(participants);
    var newRow := ScanDevices(participants, keys);
    if newRow.None? {
      RowsHaveIps(participants);
      return Failure(NoParticipantRows);
    }
    return Success(devices + [newRow.value]);
  }

  /**
   * Two participants on two addresses: the written get_devices appends a
   * single row, so one of the two devices is missing from the table.
   */
  lemma GetDevicesDropsDevices(p: ParticipantRow, q: ParticipantRow)
    requires p.deviceIp != q.deviceIp
    ensures |DeviceIps([p, q])| == 2
    ensures LastRow([p, q], DeviceIps([p, q])).Some?
    ensures exists ip :: Occurs([p, q], ip) && LastRow([p, q], DeviceIps([p, q])).value.ip != ip
  {
    var ps := [p, q];
    var keys := DeviceIps(ps);
    OccursPair(p, q);
    DeviceIpsOrdered(ps);
    PairKeys(keys, p.deviceIp, q.deviceIp);
    IpsOccur(ps);
    LastRowIp(ps, keys);
    var ip := if keys[1] == p.deviceIp then q.deviceIp else p.deviceIp;
    assert Occurs(ps, ip);
  }

  /** The addresses two participants sit on. */
  lemma OccursPair(p: ParticipantRow, q: ParticipantRow)
    ensures forall ip :: Occurs([p, q], ip) <==> ip == p.deviceIp || ip == q.deviceIp
  {
    forall ip | ip == p.deviceIp || ip == q.deviceIp ensures Occurs([p, q], ip) {
      assert p in [p, q] && q in [p, q];
    }
  }

  /** Distinct keys drawn from exactly two different values are those two. */
  lemma PairKeys(keys: seq<string>, a: string, b: string)
    requires a != b && Distinct(keys)
    requires forall k :: k in keys <==> k == a || k == b
    ensures |keys| == 2
  {
    assert (set k | k in keys) == {a, b};
    assert |{a, b}| == 2;
    DistinctCard(keys);
  }

  /** The row get_devices keeps is the one of the last key. */
  lemma LastRowIp(participants: seq<ParticipantRow>, keys: seq<string>)
    requires AllOccur(participants, keys) && keys != []
    ensures LastRow(participants, keys).Some? && LastRow(participants, keys).value.ip == keys[|keys| - 1]
  {
  }

  /** The rows of the given groups, one per group, in the order of the keys. */
  function AllDevices(participants: seq<ParticipantRow>, keys: seq<string>): seq<DeviceRow>
    requires AllOccur(participants, keys)
  {
    if keys == [] then []
    else AllDevices(participants, keys[..|keys| - 1]) + [DeviceOf(participants, keys[|keys| - 1])]
  }

  /** Row i of the table is the row of the i-th key. */
  lemma {:induction false} AllDevicesAt(participants: seq<ParticipantRow>, keys: seq<string>)
    requires AllOccur(participants, keys)
    ensures |AllDevices(participants, keys)| == |keys|
    ensures forall i :: 0 <= i < |keys| ==> AllDevices(participants, keys)[i] == DeviceOf(participants, keys[i])
  {
    if keys != [] {
      var init := keys[..|keys| - 1];
      assert AllOccur(participants, init) by {
        forall k | k in init ensures Occurs(participants, k) {
          assert k in keys;
        }
      }
      AllDevicesAt(participants, init);
    }
  }

  /** The device table get_devices evidently means to write: one row per device_ip group. */
  function DeviceTableOf(participants: seq<ParticipantRow>): seq<DeviceRow>
  {
    IpsOccur(participants);
    AllDevices(participants, DeviceIps(participants))
  }

  /** The corrected loop: each group's row is appended as it is built. */
  method AppendDevices(participants: seq<ParticipantRow>, keys: seq<string>, devices: seq<DeviceRow>) returns (r: seq<DeviceRow>)
    requires AllOccur(participants, keys)
    ensures r == devices + AllDevices(participants, keys)
  {
    r := devices;
    var i := 0;
    while i < |keys|
      invariant 0 <= i <= |keys|
      invariant AllOccur(participants, keys[..i])
      invariant r == devices + AllDevices(participants, keys[..i])
    {
      var row := NewRow(participants, keys[i]);
      assert keys[..i + 1][..i] == keys[..i];
      assert keys[..i + 1] == keys[..i] + [keys[i]];
      r := r + [row];
      i := i + 1;
    }
    assert keys[..i] == keys;
  }

  /** get_devices with the append inside the loop: every group's row, and no failure when there are none. */
  method GetAllDevices(participants: seq<ParticipantRow>, devices: seq<DeviceRow>) returns (r: seq<DeviceRow>)
    ensures r == devices + DeviceTableOf(participants)
  {
    var keys := DeviceIps(participants);
    IpsOccur(participants);
    r := AppendDevices(participants, keys, devices);
  }

  /** The corrected table lists each device address of the participants, and no other. */
  lemma AllDevicesCover(participants: seq<ParticipantRow>)
    ensures forall ip :: (exists d :: d in DeviceTableOf(participants) && d.ip == ip) <==> Occurs(participants, ip)
  {
    var keys := DeviceIps(participants);
    IpsOccur(participants);
    RowsCover(participants, keys);
  }

  lemma RowsCover(participants: seq<ParticipantRow>, keys: seq<string>)
    requires AllOccur(participants, keys)
    ensures forall ip :: (exists d :: d in AllDevices(participants, keys) && d.ip == ip) <==> ip in keys
  {
    var t := AllDevices(participants, keys);
    AllDevicesAt(participants, keys);
    forall ip ensures (exists d :: d in t && d.ip == ip) <==> ip in keys {
      if ip in keys {
        var i :| 0 <= i < |keys| && keys[i] == ip;
        assert t[i] in t;
      }
      if exists d :: d in t && d.ip == ip {
        var d :| d in t && d.ip == ip;
        var i :| 0 <= i < |t| && t[i] == d;
        assert keys[i] == ip;
      }
    }
  }

  /** The corrected table lists each address once, in ascending order. */
  lemma AllDevicesOrdered(participants: seq<ParticipantRow>)
    ensures var t := DeviceTableOf(participants);
      forall i, j :: 0 <= i < j < |t| ==> t[i].ip != t[j].ip && LexLe(t[i].ip, t[j].ip)
  {
    var keys := DeviceIps(participants);
    IpsOccur(participants);
    var t := AllDevices(participants, keys);
    AllDevicesAt(participants, keys);
    DeviceIpsOrdered(participants);
    forall i, j | 0 <= i < j < |t| ensures t[i].ip != t[j].ip && LexLe(t[i].ip, t[j].ip) {
      assert t[i].ip == keys[i] && t[j].ip == keys[j];
    }
  }

  /** Each row of the corrected table names the device of the first participant row at its address. */
  lemma AllDevicesFirst(participants: seq<ParticipantRow>)
    ensures forall d :: d in DeviceTableOf(participants) ==>
      exists i :: FirstAt(participants, i, d.ip) && d.name == participants[i].deviceName
  {
    var keys := DeviceIps(participants);
    IpsOccur(participants);
    RowsFirst(participants, keys);
  }

  lemma RowsFirst(participants: seq<ParticipantRow>, keys: seq<string>)
    requires AllOccur(participants, keys)
    ensures forall d :: d in AllDevices(participants, keys) ==>
      exists i :: FirstAt(participants, i, d.ip) && d.name == participants[i].deviceName
  {
    var t := AllDevices(participants, keys);
    AllDevicesAt(participants, keys);
    forall d | d in t ensures exists i :: FirstAt(participants, i, d.ip) && d.name == participants[i].deviceName {
      var n :| 0 <= n < |t| && t[n] == d;
      FirstOfGroup(participants, keys[n]);
    }
  }

  /** Row i is the first participant row at address ip. */
  predicate FirstAt(participants: seq<ParticipantRow>, i: int, ip: string)
  {
    0 <= i < |participants| && participants[i].deviceIp == ip && forall j :: 0 <= j < i ==> participants[j].deviceIp != ip
  }

  /** An address that occurs has a first row. */
  lemma {:induction false} FirstExists(participants: seq<ParticipantRow>, ip: string)
    requires Occurs(participants, ip)
    ensures exists i :: FirstAt(participants, i, ip)
  {
    var init := participants[..|participants| - 1];
    assert forall i :: 0 <= i < |init| ==> init[i] == participants[i];
    if exists p :: p in init && p.deviceIp == ip {
      FirstExists(init, ip);
      var i :| FirstAt(init, i, ip);
      assert FirstAt(participants, i, ip);
    } else {
      assert participants == init + [participants[|participants| - 1]];
      forall j | 0 <= j < |init| ensures participants[j].deviceIp != ip {
        assert init[j] in init;
      }
      assert FirstAt(participants, |init|, ip);
    }
  }

  /** The first row of a group is the first row of the frame with that key. */
  lemma FirstOfGroup(participants: seq<ParticipantRow>, ip: string)
    requires Occurs(participants, ip)
    ensures exists i :: FirstAt(participants, i, ip) && DeviceOf(participants, ip).name == participants[i].deviceName
  {
    FirstExists(participants, ip);
    var i :| FirstAt(participants, i, ip);
    FilterHead(participants, KeyIs(IpOf(), ip), i);
    assert DeviceGroup(participants, ip)[0] == participants[i];
  }
}
