/**
 * The device list of src/views/device_panel.py without its widgets: one list item per
 * discovered device, and the current item, which survives a refresh of the list when
 * its device is still present.
 */
module DevicePanels {
  import opened Wrappers
  import opened Text
  import opened Models

  // ---------------------------------------------------------------------------
  // Decimal numerals, for the port in a Wi-Fi device's tooltip (`str(port)`)
  // ---------------------------------------------------------------------------

  predicate IsDigit(c: char)
  {
    '0' <= c <= '9'
  }

  function Digit(d: nat): (c: char)
    requires d < 10
    ensures IsDigit(c) && c as int - '0' as int == d
  {
    ('0' as int + d) as char
  }

  /** The decimal numeral of `n`, without leading zeros. */
  function Decimal(n: nat): (r: string)
    ensures r != [] && forall i :: 0 <= i < |r| ==> IsDigit(r[i])
    ensures r[0] == '0' <==> n == 0
  {
    if n < 10 then [Digit(n)] else Decimal(n / 10) + [Digit(n % 10)]
  }

  /** The number a string of digits denotes. */
  function DecimalValue(r: string): nat
    requires forall i :: 0 <= i < |r| ==> IsDigit(r[i])
  {
    if r == [] then 0
    else
      var last := r[|r| - 1];
      assert IsDigit(last);
      DecimalValue(r[..|r| - 1]) * 10 + (last as int - '0' as int)
  }

  /** Reading back the numeral gives the number. */
  lemma {:induction false} DecimalRoundTrip(n: nat)
    ensures DecimalValue(Decimal(n)) == n
  {
    var r := Decimal(n);
    if n >= 10 {
      DecimalRoundTrip(n / 10);
      assert r[..|r| - 1] == Decimal(n / 10);
    }
  }

  // ---------------------------------------------------------------------------
  // List items
  // ---------------------------------------------------------------------------

  /** The two icons of the list. */
  datatype Icon = UsbIcon | WifiIcon

  /** A `QListWidgetItem`: its text, the device stored as its data, its icon and tooltip. */
  datatype ListItem = ListItem(text: string, device: Device, icon: Icon, toolTip: string)

  /** The two-line tooltip: model and iOS version for USB, address and port otherwise. */
  function ToolTip(d: Device): (tip: string)
    ensures d.USBDevice? ==>
      && 7 + |d.model| <= |tip|
      && tip[..7 + |d.model|] == "Model: " + d.model
      && tip[7 + |d.model|..] == "\niOS: " + d.iosVersion
    ensures d.WiFiDevice? ==>
      && 4 + |d.ipAddress| <= |tip|
      && tip[..4 + |d.ipAddress|] == "IP: " + d.ipAddress
      && tip[4 + |d.ipAddress|..] == "\nPort: " + Decimal(d.port)
  {
    match d
    case USBDevice(_, _, model, iosVersion) => "Model: " + model + "\niOS: " + iosVersion
    case WiFiDevice(_, _, ipAddress, port) => "IP: " + ipAddress + "\nPort: " + Decimal(port)
  }

  /** The item `update_devices` adds for `d`. */
  function ItemFor(d: Device): (item: ListItem)
    ensures item.text == d.name && item.device == d
    ensures item.icon == UsbIcon <==> d.USBDevice?
    ensures item.toolTip == ToolTip(d)
  {
    ListItem(d.name, d, if d.USBDevice? then UsbIcon else WifiIcon, ToolTip(d))
  }

  /**
   * The tooltip tells the two kinds apart by its first line, and shows every attribute
   * the kind has besides id and name.
   */
  lemma ToolTipDescribes(d: Device)
    ensures d.USBDevice? <==> "Model: " <= ToolTip(d)
    ensures d.WiFiDevice? <==> "IP: " <= ToolTip(d)
    ensures d.USBDevice? ==> Contains(ToolTip(d), d.model) && Contains(ToolTip(d), d.iosVersion)
    ensures d.WiFiDevice? ==> Contains(ToolTip(d), d.ipAddress) && Contains(ToolTip(d), Decimal(d.port))
  {
    var t := ToolTip(d);
    match d
    case USBDevice(_, _, model, iosVersion) =>
      assert t[0] == 'M';
      var head := "Model: " + model + "\niOS: ";
      assert t == "Model: " + model + ("\niOS: " + iosVersion);
      ContainsPiece("Model: ", model, "\niOS: " + iosVersion);
      assert t == head + iosVersion + "";
      ContainsPiece(head, iosVersion, "");
    case WiFiDevice(_, _, ipAddress, port) =>
      assert t[0] == 'I';
      var head := "IP: " + ipAddress + "\nPort: ";
      assert t == "IP: " + ipAddress + ("\nPort: " + Decimal(port));
      ContainsPiece("IP: ", ipAddress, "\nPort: " + Decimal(port));
      assert t == head + Decimal(port) + "";
      ContainsPiece(head, Decimal(port), "");
  }

  /**
   * The row the current item ends on when `ds` is listed afresh while the device with
   * id `id` was current: the last row whose device has that id, since each match
   * makes its item current again. No id, or no device with it, leaves no current item.
   */
  function LastMatch(ds: seq<Device>, id: Option<string>): (row: Option<nat>)
    ensures row.Some? ==> row.value < |ds|
  {
    if ds == [] then None
    else if Some(ds[|ds| - 1].id) == id then Some(|ds| - 1)
    else LastMatch(ds[..|ds| - 1], id)
  }

  /**
   * `LastMatch` finds the last row whose device has the id sought, and finds none
   * exactly when no device has it.
   */
  lemma {:induction false} LastMatchIsLast(ds: seq<Device>, id: Option<string>)
    ensures var row := LastMatch(ds, id);
      row.Some? ==> Some(ds[row.value].id) == id && forall k :: row.value < k < |ds| ==> Some(ds[k].id) != id
    ensures LastMatch(ds, id).None? <==> forall k :: 0 <= k < |ds| ==> Some(ds[k].id) != id
  {
    if ds != [] && Some(ds[|ds| - 1].id) != id {
      var front := ds[..|ds| - 1];
      LastMatchIsLast(front, id);
      forall k | 0 <= k < |front| ensures ds[k] == front[k] { }
    }
  }

  /** The items of a list showing `ds`, top to bottom. */
  function ItemsFor(ds: seq<Device>): (items: seq<ListItem>)
    ensures |items| == |ds|
  {
    seq(|ds|, k requires 0 <= k < |ds| => ItemFor(ds[k]))
  }

  lemma ItemsForStep(ds: seq<Device>, i: nat)
    requires i < |ds|
    ensures ItemsFor(ds[..i + 1]) == ItemsFor(ds[..i]) + [ItemFor(ds[i])]
  {
    assert ItemsFor(ds[..i + 1])[i] == ItemFor(ds[i]);
  }

  /** Listing one more device moves the match to it exactly when its id is the one sought. */
  lemma LastMatchStep(ds: seq<Device>, i: nat, id: Option<string>)
    requires i < |ds|
    ensures LastMatch(ds[..i + 1], id)
         == if Some(ds[i].id) == id then Some(i) else LastMatch(ds[..i], id)
  {
    assert ds[..i + 1][..i] == ds[..i];
  }

  class DevicePanel {
    /** The items of the list, top to bottom. */
    var items: seq<ListItem>
    /** The row of the current item, if there is one. */
    var current: Option<nat>

    ghost predicate Valid()
      reads this
    {
      current.Some? ==> current.value < |items|
    }

    constructor ()
      ensures Valid() && items == [] && current == None
    {
      items := [];
      current := None;
    }

    /** The id of the device of the current item, if there is one. */
    function CurrentId(): (id: Option<string>)
      reads this
      requires Valid()
      ensures id.Some? <==> current.Some?
      ensures id.Some? ==> exists k :: 0 <= k < |items| && items[k].device.id == id.value
    {
      if current.Some? then Some(items[current.value].device.id) else None
    }

    /** `setCurrentItem`: the item in `row` becomes current. */
    method SetCurrentItem(row: nat)
      requires row < |items|
      modifies this`current
      ensures current == Some(row)
    {
      current := Some(row);
    }

    /**
     * `update_devices`: the list is rebuilt with one item per device, in order, and the
     * item of the previously current device, if it is still listed, is current again.
     */
    method UpdateDevices(devices: seq<Device>)
      requires Valid()
      modifies this`items, this`current
      ensures Valid()
      ensures |items| == |devices|
      ensures forall i :: 0 <= i < |devices| ==> items[i] == ItemFor(devices[i])
      ensures current == LastMatch(devices, old(CurrentId()))
      ensures current.Some? ==> Some(items[current.value].device.id) == old(CurrentId())
      ensures old(current).None? ==> current.None?
    {
      var rememberedId := CurrentId();
      items := [];
      current := None;
      var i := 0;
      while i < |devices|
        invariant 0 <= i <= |devices|
        invariant items == ItemsFor(devices[..i])
        invariant current == LastMatch(devices[..i], rememberedId)
      {
        ItemsForStep(devices, i);
        items := items + [ItemFor(devices[i])];
        LastMatchStep(devices, i, rememberedId);
        if Some(devices[i].id) == rememberedId {
          SetCurrentItem(i);
        }
        i := i + 1;
      }
      assert devices[..i] == devices;
      assert items == ItemsFor(devices);
      LastMatchIsLast(devices, rememberedId);
    }

    /** `on_device_selected`: emits the device stored in the activated item. */
    method OnDeviceSelected(row: nat) returns (emitted: Device)
      requires row < |items|
      ensures emitted == items[row].device
    {
      emitted := items[row].device;
    }

    /** `get_selected_device`: the device of the current item, or nothing. */
    method GetSelectedDevice() returns (d: Option<Device>)
      requires Valid()
      ensures d.Some? <==> current.Some?
      ensures d.Some? ==> d.value == items[current.value].device && Some(d.value.id) == CurrentId()
    {
      d := if current.Some? then Some(items[current.value].device) else None;
    }
  }

  /**
   * A refresh of a list that still holds a device with the remembered id finds a row:
   * the last one with that id, at or after any given occurrence `k`.
   */
  lemma RefreshKeepsSelection(devices: seq<Device>, id: string, k: nat)
    requires k < |devices| && devices[k].id == id
    ensures LastMatch(devices, Some(id)).Some?
    ensures k <= LastMatch(devices, Some(id)).value
    ensures devices[LastMatch(devices, Some(id)).value].id == id
  {
    LastMatchIsLast(devices, Some(id));
  }
}
