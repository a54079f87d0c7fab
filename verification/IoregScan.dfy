/**
 * macOS USB CDC-ECM discovery: the depth-stack pass over the flat `ioreg` listing gives every node
 * its nearest USB-device ancestor, and an adapter is reported exactly when one device is that
 * ancestor of both a CDC-ECM interface and a named network node.
 */
module IoregScan {
  import opened Wrappers

  datatype Class = UsbDevice | UsbInterface | Ethernet | SkywalkNetwork | OtherClass

  /** One listed node with the properties the scanner reads from it. */
  datatype Node = Node(
    depth: nat, class_: Class, cdcEcm: bool, bsdName: Option<string>, mac: Option<string>,
    vendor: Option<nat>, product: Option<nat>, serial: Option<string>)

  // ----- tree meaning of a flat depth listing -----

  /** USB device `j` encloses everything listed after it, up to but excluding `n`. */
  ghost predicate Live(nodes: seq<Node>, j: nat, n: nat)
    requires n <= |nodes|
  {
    j < n && nodes[j].class_.UsbDevice?
    && (n == j + 1 || (Live(nodes, j, n - 1) && nodes[j].depth < nodes[n - 1].depth))
  }

  /** `Live` says: every node listed after `j` and before `n` is deeper than `j`. */
  lemma {:induction false} LiveMeansDeeper(nodes: seq<Node>, j: nat, n: nat)
    requires j < n <= |nodes| && nodes[j].class_.UsbDevice?
    ensures Live(nodes, j, n) <==> forall k :: j < k < n ==> nodes[j].depth < nodes[k].depth
  {
    if n > j + 1 {
      LiveMeansDeeper(nodes, j, n - 1);
      assert nodes[n - 1].depth >= 0;
    }
  }

  /** Device `j` is an ancestor of node `i`: all nodes from `j` down to `i` lie below it. */
  ghost predicate UsbAncestor(nodes: seq<Node>, j: nat, i: nat)
    requires i < |nodes|
  {
    j < i && Live(nodes, j, i + 1)
  }

  /** The innermost enclosing USB device. */
  ghost predicate NearestUsb(nodes: seq<Node>, i: nat, r: Option<nat>)
    requires i < |nodes|
  {
    match r
    case None => forall j: nat :: !UsbAncestor(nodes, j, i)
    case Some(d) => UsbAncestor(nodes, d, i) && forall j: nat :: UsbAncestor(nodes, j, i) ==> j <= d
  }

  // ----- the stack pass -----

  type Stack = seq<(nat, nat)>

  ghost function Indices(stack: Stack): set<nat> {
    if stack == [] then {} else Indices(stack[..|stack| - 1]) + {stack[|stack| - 1].1}
  }

  /** Entries carry their node's depth, and both depth and index grow towards the top. */
  ghost predicate Proper(nodes: seq<Node>, stack: Stack) {
    stack == [] ||
    var rest, top := stack[..|stack| - 1], stack[|stack| - 1];
    && Proper(nodes, rest)
    && top.1 < |nodes| && top.0 == nodes[top.1].depth
    && (rest != [] ==> rest[|rest| - 1].0 < top.0 && rest[|rest| - 1].1 < top.1)
  }

  /** Everything on a proper stack is at most as deep, and listed at most as late, as its top. */
  lemma {:induction false} TopBounds(nodes: seq<Node>, stack: Stack, j: nat)
    requires Proper(nodes, stack) && j in Indices(stack)
    ensures j < |nodes| && nodes[j].depth <= stack[|stack| - 1].0 && j <= stack[|stack| - 1].1
  {
    if j != stack[|stack| - 1].1 { TopBounds(nodes, stack[..|stack| - 1], j); }
  }

  ghost predicate OnlyLive(nodes: seq<Node>, stack: Stack, n: nat)
    requires n <= |nodes|
  {
    forall j: nat :: j in Indices(stack) ==> Live(nodes, j, n)
  }

  ghost predicate AllLive(nodes: seq<Node>, stack: Stack, n: nat)
    requires n <= |nodes|
  {
    forall j: nat :: Live(nodes, j, n) ==> j in Indices(stack)
  }

  /** The inner loop of `usb_device_parents`: drops exactly the devices that do not enclose node `n`. */
  method PopDeeper(nodes: seq<Node>, n: nat, before: Stack) returns (stack: Stack)
    requires n < |nodes| && Proper(nodes, before) && OnlyLive(nodes, before, n) && AllLive(nodes, before, n)
    ensures Proper(nodes, stack)
    ensures forall j: nat :: j in Indices(stack) <==> UsbAncestor(nodes, j, n)
  {
    stack := before;
    while stack != [] && stack[|stack| - 1].0 >= nodes[n].depth
      invariant Proper(nodes, stack) && OnlyLive(nodes, stack, n)
      invariant forall j: nat :: UsbAncestor(nodes, j, n) ==> j in Indices(stack)
      decreases |stack|
    {
      stack := stack[..|stack| - 1];
    }
    forall j: nat | j in Indices(stack) ensures UsbAncestor(nodes, j, n) {
      TopBounds(nodes, stack, j);
    }
  }

  /** The top of what is left is the nearest USB ancestor. */
  lemma TopIsNearest(nodes: seq<Node>, stack: Stack, n: nat)
    requires n < |nodes| && Proper(nodes, stack)
    requires forall j: nat :: j in Indices(stack) <==> UsbAncestor(nodes, j, n)
    ensures NearestUsb(nodes, n, if stack == [] then None else Some(stack[|stack| - 1].1))
  {
    forall j: nat | UsbAncestor(nodes, j, n) && stack != [] ensures j <= stack[|stack| - 1].1 {
      TopBounds(nodes, stack, j);
    }
  }

  /** The survivors, and the node itself if it is a device, are what is live afterwards. */
  lemma StackAfter(nodes: seq<Node>, stack: Stack, n: nat)
    requires n < |nodes| && Proper(nodes, stack)
    requires forall j: nat :: j in Indices(stack) <==> UsbAncestor(nodes, j, n)
    ensures var next := if nodes[n].class_.UsbDevice? then stack + [(nodes[n].depth, n)] else stack;
            Proper(nodes, next) && OnlyLive(nodes, next, n + 1) && AllLive(nodes, next, n + 1)
  {
    var pushed := stack + [(nodes[n].depth, n)];
    assert pushed[..|stack|] == stack;
    if stack != [] {
      assert UsbAncestor(nodes, stack[|stack| - 1].1, n);
    }
    var next := if nodes[n].class_.UsbDevice? then pushed else stack;
    forall j: nat ensures j in Indices(next) <==> Live(nodes, j, n + 1) {
      assert UsbAncestor(nodes, j, n) <==> j < n && Live(nodes, j, n + 1);
    }
  }

  /** One turn of the pass: pop, read the parent off the top, push a device. */
  method VisitNode(nodes: seq<Node>, n: nat, before: Stack) returns (stack: Stack, parent: Option<nat>)
    requires n < |nodes| && Proper(nodes, before) && OnlyLive(nodes, before, n) && AllLive(nodes, before, n)
    ensures Proper(nodes, stack) && OnlyLive(nodes, stack, n + 1) && AllLive(nodes, stack, n + 1)
    ensures NearestUsb(nodes, n, parent)
  {
    stack := PopDeeper(nodes, n, before);
    parent := if stack == [] then None else Some(stack[|stack| - 1].1);
    TopIsNearest(nodes, stack, n);
    StackAfter(nodes, stack, n);
    stack := if nodes[n].class_.UsbDevice? then stack + [(nodes[n].depth, n)] else stack;
  }

  ghost predicate ParentsOf(nodes: seq<Node>, parents: seq<Option<nat>>)
    requires |parents| <= |nodes|
  {
    parents == [] ||
    (ParentsOf(nodes, parents[..|parents| - 1]) && NearestUsb(nodes, |parents| - 1, parents[|parents| - 1]))
  }

  lemma {:induction false} ParentAt(nodes: seq<Node>, parents: seq<Option<nat>>, i: nat)
    requires i < |parents| <= |nodes| && ParentsOf(nodes, parents)
    ensures NearestUsb(nodes, i, parents[i])
  {
    if i < |parents| - 1 { ParentAt(nodes, parents[..|parents| - 1], i); }
  }

  /** `usb_device_parents`: the parent of every node, position by position. */
  method UsbDeviceParents(nodes: seq<Node>) returns (parents: seq<Option<nat>>)
    ensures |parents| == |nodes| && ParentsOf(nodes, parents)
  {
    parents := [];
    var stack: Stack := [];
    for n := 0 to |nodes|
      invariant |parents| == n && ParentsOf(nodes, parents)
      invariant Proper(nodes, stack) && OnlyLive(nodes, stack, n) && AllLive(nodes, stack, n)
    {
      var parent;
      stack, parent := VisitNode(nodes, n, stack);
      assert (parents + [parent])[..n] == parents;
      parents := parents + [parent];
    }
  }

  // ----- reported adapters -----

  datatype Adapter = Adapter(interface_: string, vendor: nat, product: nat, serial: Option<string>, mac: Option<string>)

  /** A node attributed to device `d`: not a USB device itself, and `d` is its nearest one. */
  ghost predicate Attributed(nodes: seq<Node>, i: nat, d: nat)
    requires i < |nodes|
  {
    !nodes[i].class_.UsbDevice? && NearestUsb(nodes, i, Some(d))
  }

  ghost predicate HasCdcEcm(nodes: seq<Node>, d: nat, n: nat)
    requires n <= |nodes|
  {
    exists i: nat :: i < n && Attributed(nodes, i, d) && nodes[i].class_.UsbInterface? && nodes[i].cdcEcm
  }

  ghost predicate HasNetworkName(nodes: seq<Node>, d: nat, n: nat, name: string)
    requires n <= |nodes|
  {
    exists i: nat :: i < n && Attributed(nodes, i, d)
      && (nodes[i].class_.Ethernet? || nodes[i].class_.SkywalkNetwork?) && nodes[i].bsdName == Some(name)
  }

  /** The first MAC address listed below the device. */
  ghost function FirstMac(nodes: seq<Node>, d: nat, n: nat): Option<string>
    requires n <= |nodes|
  {
    if n == 0 then None
    else if FirstMac(nodes, d, n - 1).Some? then FirstMac(nodes, d, n - 1)
    else if Attributed(nodes, n - 1, d) then nodes[n - 1].mac
    else None
  }

  /** Device `d` is the reason adapter `a` is reported. */
  ghost predicate ReportedBy(nodes: seq<Node>, d: nat, a: Adapter) {
    && d < |nodes| && nodes[d].class_.UsbDevice?
    && nodes[d].vendor == Some(a.vendor) && nodes[d].product == Some(a.product) && nodes[d].serial == a.serial
    && HasCdcEcm(nodes, d, |nodes|) && HasNetworkName(nodes, d, |nodes|, a.interface_)
    && a.mac == FirstMac(nodes, d, |nodes|)
  }

  datatype Device = Device(vendor: Option<nat>, product: Option<nat>, serial: Option<string>,
                           mac: Option<string>, interfaces: set<string>, cdcEcm: bool)

  /** What the device record holds after the first `n` nodes. */
  ghost predicate RecordOf(nodes: seq<Node>, d: nat, n: nat, device: Device)
    requires d < n <= |nodes|
  {
    && device.vendor == nodes[d].vendor && device.product == nodes[d].product && device.serial == nodes[d].serial
    && (device.cdcEcm <==> HasCdcEcm(nodes, d, n))
    && (forall name :: name in device.interfaces <==> HasNetworkName(nodes, d, n, name))
    && device.mac == FirstMac(nodes, d, n)
  }

  ghost predicate Records(nodes: seq<Node>, n: nat, devices: map<nat, Device>)
    requires n <= |nodes|
  {
    && (forall d: nat :: d in devices <==> d < n && nodes[d].class_.UsbDevice?)
    && forall d: nat :: d in devices && d < n ==> RecordOf(nodes, d, n, devices[d])
  }

  /** The per-node update of one device record. */
  function Update(device: Device, node: Node): Device {
    device.(cdcEcm := device.cdcEcm || (node.class_.UsbInterface? && node.cdcEcm),
            interfaces := if (node.class_.Ethernet? || node.class_.SkywalkNetwork?) && node.bsdName.Some?
                          then device.interfaces + {node.bsdName.value} else device.interfaces,
            mac := if device.mac.None? then node.mac else device.mac)
  }

  lemma RecordAdvances(nodes: seq<Node>, d: nat, n: nat, device: Device)
    requires d < n < |nodes| && RecordOf(nodes, d, n, device)
    ensures RecordOf(nodes, d, n + 1, if Attributed(nodes, n, d) then Update(device, nodes[n]) else device)
  {
    assert HasCdcEcm(nodes, d, n + 1) <==>
      HasCdcEcm(nodes, d, n) || (Attributed(nodes, n, d) && nodes[n].class_.UsbInterface? && nodes[n].cdcEcm);
    forall name ensures HasNetworkName(nodes, d, n + 1, name) <==>
      HasNetworkName(nodes, d, n, name) || (Attributed(nodes, n, d)
        && (nodes[n].class_.Ethernet? || nodes[n].class_.SkywalkNetwork?) && nodes[n].bsdName == Some(name))
    {
    }
  }

  lemma NewRecord(nodes: seq<Node>, n: nat)
    requires n < |nodes| && nodes[n].class_.UsbDevice?
    ensures RecordOf(nodes, n, n + 1, Device(nodes[n].vendor, nodes[n].product, nodes[n].serial, None, {}, false))
  {
    NoMacBefore(nodes, n, n);
  }

  /** Nothing listed before or at a device is attributed to it. */
  lemma {:induction false} NoMacBefore(nodes: seq<Node>, d: nat, n: nat)
    requires n <= d < |nodes|
    ensures FirstMac(nodes, d, n).None?
  {
    if n > 0 { NoMacBefore(nodes, d, n - 1); }
  }

  lemma AttributedIsUnique(nodes: seq<Node>, i: nat, d: nat, e: nat)
    requires i < |nodes| && Attributed(nodes, i, d) && Attributed(nodes, i, e)
    ensures d == e
  {
  }

  /** The collecting loop of `parse_ioreg`. */
  method CollectDevices(nodes: seq<Node>) returns (devices: map<nat, Device>)
    ensures Records(nodes, |nodes|, devices)
  {
    var parents := UsbDeviceParents(nodes);
    devices := map[];
    for n := 0 to |nodes|
      invariant Records(nodes, n, devices)
    {
      ghost var before := devices;
      ParentAt(nodes, parents, n);
      if nodes[n].class_.UsbDevice? {
        NewRecord(nodes, n);
        devices := devices[n := Device(nodes[n].vendor, nodes[n].product, nodes[n].serial, None, {}, false)];
      } else if parents[n].Some? && parents[n].value in devices {
        devices := devices[parents[n].value := Update(devices[parents[n].value], nodes[n])];
      }
      forall d: nat | d in before ensures RecordOf(nodes, d, n + 1, devices[d]) {
        RecordAdvances(nodes, d, n, before[d]);
        if Attributed(nodes, n, d) && parents[n].Some? && !nodes[n].class_.UsbDevice? {
          AttributedIsUnique(nodes, n, d, parents[n].value);
        }
      }
    }
  }

  /** `parse_ioreg` on listed nodes: exactly the adapters some device is a reason for. */
  method Adapters(nodes: seq<Node>) returns (adapters: set<Adapter>)
    ensures forall a :: a in adapters <==> exists d: nat :: ReportedBy(nodes, d, a)
  {
    var devices := CollectDevices(nodes);
    adapters := {};
    for d := 0 to |nodes|
      invariant forall a :: a in adapters <==> exists e: nat :: e < d && ReportedBy(nodes, e, a)
    {
      if d in devices && devices[d].cdcEcm && devices[d].vendor.Some? && devices[d].product.Some? {
        var device := devices[d];
        var found := set name | name in device.interfaces ::
          Adapter(name, device.vendor.value, device.product.value, device.serial, device.mac);
        forall a ensures a in found <==> ReportedBy(nodes, d, a) {
          if ReportedBy(nodes, d, a) { assert a.interface_ in device.interfaces; }
        }
        adapters := adapters + found;
      }
    }
  }
}
