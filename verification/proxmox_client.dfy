/**
  The response shaping of the Proxmox client (`agent/proxmox_client.py`):
  the API base URL, the VM list built from `/nodes/{node}/qemu`, the guest
  addresses reported by the QEMU agent, the node's memory, the context that
  `discover` assembles, and the sections of the context's prompt text.

  HTTP is not modelled: each GET is an input, `None` when the request or
  its JSON decoding failed (`_get` raises), otherwise the decoded body.
 */
module ProxmoxClient {
  import opened Wrappers
  import opened Text
  import opened Json
  import Sorting

  // ---------------------------------------------------------------------------
  // API base URL
  // ---------------------------------------------------------------------------

  const ApiSuffix: string := "/api2/json"

  /** `s.rstrip("/")`. */
  function RStripSlash(s: string): (r: string)
    ensures |r| <= |s| && r == s[..|r|]
    ensures r == [] || r[|r| - 1] != '/'
    ensures forall i :: |r| <= i < |s| ==> s[i] == '/'
  {
    if |s| > 0 && s[|s| - 1] == '/' then RStripSlash(s[..|s| - 1]) else s
  }

  /** `ProxmoxClient.__init__`: drop trailing slashes and one trailing
      "/api2/json", then append "/api2/json". */
  function NormaliseBase(apiUrl: string): (r: string)
    ensures EndsWith(r, ApiSuffix)
  {
    var b := RStripSlash(apiUrl);
    var host := if EndsWith(b, ApiSuffix) then b[..|b| - |ApiSuffix|] else b;
    var r := host + ApiSuffix;
    assert r[|r| - |ApiSuffix|..] == ApiSuffix;
    r
  }

  /** A string without trailing slashes is its own `rstrip("/")`. */
  lemma RStripSlashUnchanged(s: string)
    requires s == [] || s[|s| - 1] != '/'
    ensures RStripSlash(s) == s
  {
  }

  /** Trailing slashes never matter. */
  lemma {:induction false} RStripSlashAppend(s: string)
    ensures RStripSlash(s + "/") == RStripSlash(s)
  {
    assert (s + "/")[..|s|] == s;
  }

  /** Normalising a normalised base changes nothing. */
  lemma NormaliseIdempotent(apiUrl: string)
    ensures NormaliseBase(NormaliseBase(apiUrl)) == NormaliseBase(apiUrl)
  {
    var n := NormaliseBase(apiUrl);
    RStripSlashUnchanged(n);
    assert n[..|n| - |ApiSuffix|] + ApiSuffix == n;
  }

  /** A host given bare, with a trailing slash, or with the API path already
      appended, yields the same base. */
  lemma NormaliseForms(h: string)
    requires h == [] || h[|h| - 1] != '/'
    requires !EndsWith(h, ApiSuffix)
    ensures NormaliseBase(h) == h + ApiSuffix
    ensures NormaliseBase(h + "/") == h + ApiSuffix
    ensures NormaliseBase(h + ApiSuffix) == h + ApiSuffix
  {
    RStripSlashUnchanged(h);
    RStripSlashAppend(h);
    var n := h + ApiSuffix;
    RStripSlashUnchanged(n);
    assert n[|n| - |ApiSuffix|..] == ApiSuffix;
    assert n[..|n| - |ApiSuffix|] == h;
  }

  // ---------------------------------------------------------------------------
  // JSON plumbing shared by the queries
  // ---------------------------------------------------------------------------

  const MiB: int := 1024 * 1024

  /** `v // (1024 * 1024)`: ints floor, booleans are 0 or 1; anything else
      raises TypeError (None). */
  function FloorDivMiB(v: Value): (r: Option<int>)
    ensures r.Some? <==> (v.JInt? || v.JBool?)
    ensures v.JInt? ==> r.value * MiB <= v.i < (r.value + 1) * MiB
    ensures v.JBool? ==> r == Some(0)
  {
    match v
    case JInt(i) => Some(i / MiB)
    case JBool(_) => Some(0)
    case _ => None
  }

  /** `for x in v: x.get(...)`: `v` must be iterable and every item a dict. */
  function Objects(v: Value): (r: Option<seq<seq<(string, Value)>>>)
    ensures r.Some? <==> Iterate(v).Some? && forall k :: 0 <= k < |Iterate(v).value| ==> Iterate(v).value[k].JObj?
    ensures r.Some? ==> |r.value| == |Iterate(v).value|
    ensures r.Some? ==> forall k :: 0 <= k < |r.value| ==> Iterate(v).value[k] == JObj(r.value[k])
  {
    var items :- Iterate(v);
    AllObjects(items)
  }

  function AllObjects(items: seq<Value>): (r: Option<seq<seq<(string, Value)>>>)
    ensures r.Some? <==> forall k :: 0 <= k < |items| ==> items[k].JObj?
    ensures r.Some? ==> |r.value| == |items| && forall k :: 0 <= k < |items| ==> items[k] == JObj(r.value[k])
  {
    if |items| == 0 then Some([])
    else if !items[0].JObj? then None
    else
      match AllObjects(items[1..])
      case None => None
      case Some(rest) => Some([items[0].fields] + rest)
  }

  /** `d.get(key, {})` used as a dict: a present non-dict raises (None). */
  function SubObject(d: seq<(string, Value)>, key: string): (r: Option<seq<(string, Value)>>)
    ensures r.Some? <==> GetOr(d, key, JObj([])).JObj?
    ensures r.Some? ==> GetOr(d, key, JObj([])) == JObj(r.value)
  {
    match GetOr(d, key, JObj([]))
    case JObj(fields) => Some(fields)
    case _ => None
  }

  // ---------------------------------------------------------------------------
  // Guest-agent addresses (`_get_vm_ips`)
  // ---------------------------------------------------------------------------

  /** An address entry contributes `ip`: it is IPv4, its address is a non-empty
      string, and not a 127.x loopback address. */
  predicate KeptAddress(addr: seq<(string, Value)>, ip: string) {
    && GetOr(addr, "ip-address-type", JNull) == JStr("ipv4")
    && GetOr(addr, "ip-address", JStr("")) == JStr(ip)
    && ip != ""
    && !StartsWith(ip, "127.")
  }

  /** An IPv4 entry whose address is truthy but not a string: calling
      `startswith` on it raises AttributeError. */
  predicate BadAddress(addr: seq<(string, Value)>) {
    && GetOr(addr, "ip-address-type", JNull) == JStr("ipv4")
    && Truthy(GetOr(addr, "ip-address", JStr("")))
    && !GetOr(addr, "ip-address", JStr("")).JStr?
  }

  /** Two partial results joined: both lists in order, or a failure when
      either failed. */
  function Both(x: Option<seq<string>>, y: Option<seq<string>>): Option<seq<string>> {
    if x.Some? && y.Some? then Some(x.value + y.value) else None
  }

  lemma BothAssociative(x: Option<seq<string>>, y: Option<seq<string>>, z: Option<seq<string>>)
    ensures Both(x, Both(y, z)) == Both(Both(x, y), z)
  {
    if x.Some? && y.Some? && z.Some? {
      assert x.value + (y.value + z.value) == (x.value + y.value) + z.value;
    }
  }

  /** One pass of the inner loop: the entry's address when it is kept,
      nothing when it is skipped, None when reading it raises. */
  function EntryIp(e: seq<(string, Value)>): (r: Option<seq<string>>)
    ensures r.None? <==> BadAddress(e)
    ensures r.Some? ==> |r.value| <= 1
    ensures r.Some? ==> forall ip :: ip in r.value <==> KeptAddress(e, ip)
  {
    if GetOr(e, "ip-address-type", JNull) != JStr("ipv4") then Some([])
    else
      match GetOr(e, "ip-address", JStr(""))
      case JStr(ip) => if ip != "" && !StartsWith(ip, "127.") then Some([ip]) else Some([])
      case v => if Truthy(v) then None else Some([])
  }

  /** The inner loop over one interface's `ip-addresses`. */
  function AddressIps(addrs: seq<seq<(string, Value)>>): (r: Option<seq<string>>)
    ensures r.None? <==> exists k :: 0 <= k < |addrs| && BadAddress(addrs[k])
    ensures r.Some? ==> forall ip :: ip in r.value <==> exists k :: 0 <= k < |addrs| && KeptAddress(addrs[k], ip)
  {
    if |addrs| == 0 then Some([])
    else
      var rest := AddressIps(addrs[1..]);
      assert forall k :: 1 <= k < |addrs| ==> addrs[k] == addrs[1..][k - 1];
      assert forall k :: 0 <= k < |addrs[1..]| ==> addrs[1..][k] == addrs[k + 1];
      Both(EntryIp(addrs[0]), rest)
  }

  /** Reading two address lists one after the other: the kept addresses of
      the first, then those of the second, duplicates included; it fails
      when either half fails. */
  lemma {:induction false} AddressIpsAppend(a: seq<seq<(string, Value)>>, b: seq<seq<(string, Value)>>)
    ensures AddressIps(a + b) ==
      if AddressIps(a).Some? && AddressIps(b).Some? then Some(AddressIps(a).value + AddressIps(b).value) else None
  {
    if |a| == 0 {
      assert a + b == b;
      if AddressIps(b).Some? {
        assert [] + AddressIps(b).value == AddressIps(b).value;
      }
    } else {
      assert (a + b)[0] == a[0];
      assert (a + b)[1..] == a[1..] + b;
      AddressIpsAppend(a[1..], b);
      BothAssociative(EntryIp(a[0]), AddressIps(a[1..]), AddressIps(b));
    }
  }

  /** One address entry yields nothing, its own address, or an error. */
  lemma AddressIpsSingle(e: seq<(string, Value)>)
    ensures AddressIps([e]).None? <==> BadAddress(e)
    ensures AddressIps([e]).Some? ==> |AddressIps([e]).value| <= 1
    ensures forall ip :: KeptAddress(e, ip) ==> AddressIps([e]) == Some([ip])
  {
    assert [e][1..] == [];
    assert AddressIps([e][1..]) == Some([]);
    if EntryIp(e).Some? {
      assert EntryIp(e).value + [] == EntryIp(e).value;
    }
  }

  /** An interface's `ip-addresses` entries, which must iterate to dicts. */
  function AddressEntries(iface: seq<(string, Value)>): Option<seq<seq<(string, Value)>>> {
    Objects(GetOr(iface, "ip-addresses", JList([])))
  }

  /** One interface's addresses: none for "lo", otherwise those of its
      `ip-addresses` entries. */
  function InterfaceIps(iface: seq<(string, Value)>): Option<seq<string>> {
    if GetOr(iface, "name", JNull) == JStr("lo") then Some([])
    else
      var addrs :- AddressEntries(iface);
      AddressIps(addrs)
  }

  /** `ip` is reported for this interface: it is not "lo" and one of its
      entries is a kept IPv4 address. */
  predicate InterfaceKeeps(iface: seq<(string, Value)>, ip: string) {
    && GetOr(iface, "name", JNull) != JStr("lo")
    && AddressEntries(iface).Some?
    && exists a :: 0 <= a < |AddressEntries(iface).value| && KeptAddress(AddressEntries(iface).value[a], ip)
  }

  lemma InterfaceIpsMembership(iface: seq<(string, Value)>, ip: string)
    requires InterfaceIps(iface).Some?
    ensures ip in InterfaceIps(iface).value <==> InterfaceKeeps(iface, ip)
  {
  }

  function InterfacesIps(ifaces: seq<seq<(string, Value)>>): (r: Option<seq<string>>)
    ensures r.None? <==> exists k :: 0 <= k < |ifaces| && InterfaceIps(ifaces[k]).None?
    ensures r.Some? ==> forall ip :: ip in r.value <==> exists k :: 0 <= k < |ifaces| && ip in InterfaceIps(ifaces[k]).value
  {
    if |ifaces| == 0 then Some([])
    else
      var rest := InterfacesIps(ifaces[1..]);
      assert forall k :: 1 <= k < |ifaces| ==> ifaces[k] == ifaces[1..][k - 1];
      assert forall k :: 0 <= k < |ifaces[1..]| ==> ifaces[1..][k] == ifaces[k + 1];
      Both(InterfaceIps(ifaces[0]), rest)
  }

  /** Reading two interface lists one after the other: the addresses of the
      first, then those of the second, in order and with duplicates; it fails
      when either half fails. */
  lemma {:induction false} InterfacesIpsAppend(a: seq<seq<(string, Value)>>, b: seq<seq<(string, Value)>>)
    ensures InterfacesIps(a + b) ==
      if InterfacesIps(a).Some? && InterfacesIps(b).Some? then Some(InterfacesIps(a).value + InterfacesIps(b).value) else None
  {
    if |a| == 0 {
      assert a + b == b;
      if InterfacesIps(b).Some? {
        assert [] + InterfacesIps(b).value == InterfacesIps(b).value;
      }
    } else {
      assert (a + b)[0] == a[0];
      assert (a + b)[1..] == a[1..] + b;
      InterfacesIpsAppend(a[1..], b);
      BothAssociative(InterfaceIps(a[0]), InterfacesIps(a[1..]), InterfacesIps(b));
    }
  }

  /** One interface contributes exactly its own address list. */
  lemma InterfacesIpsSingle(iface: seq<(string, Value)>)
    ensures InterfacesIps([iface]) == InterfaceIps(iface)
  {
    assert [iface][1..] == [];
    assert InterfacesIps([iface][1..]) == Some([]);
    if InterfaceIps(iface).Some? {
      assert InterfaceIps(iface).value + [] == InterfaceIps(iface).value;
    }
  }

  /** The interface list of a decoded agent response: `data.result`. */
  function Interfaces(resp: Value): Option<seq<seq<(string, Value)>>> {
    if !resp.JObj? then None
    else
      var data :- SubObject(resp.fields, "data");
      Objects(GetOr(data, "result", JList([])))
  }

  /** `_get_vm_ips` on the decoded agent response; None when it raises. */
  function VmIps(resp: Value): Option<seq<string>> {
    var ifaces :- Interfaces(resp);
    InterfacesIps(ifaces)
  }

  /** Every address `_get_vm_ips` returns is a non-empty, non-loopback IPv4
      address of a non-"lo" interface, and every such address is returned. */
  lemma VmIpsMembership(resp: Value, ip: string)
    requires VmIps(resp).Some?
    ensures ip in VmIps(resp).value <==>
      exists k :: 0 <= k < |Interfaces(resp).value| && InterfaceKeeps(Interfaces(resp).value[k], ip)
  {
    var ifaces := Interfaces(resp).value;
    forall k | 0 <= k < |ifaces|
      ensures ip in InterfaceIps(ifaces[k]).value <==> InterfaceKeeps(ifaces[k], ip)
    {
      InterfaceIpsMembership(ifaces[k], ip);
    }
  }

  /** No loopback or empty address is ever reported. */
  lemma VmIpsFiltered(resp: Value)
    requires VmIps(resp).Some?
    ensures forall ip :: ip in VmIps(resp).value ==> ip != "" && !StartsWith(ip, "127.")
  {
    forall ip | ip in VmIps(resp).value
      ensures ip != "" && !StartsWith(ip, "127.")
    {
      VmIpsMembership(resp, ip);
    }
  }

  // ---------------------------------------------------------------------------
  // VM list (`_get_vms`)
  // ---------------------------------------------------------------------------

  /** The fields the client keeps per VM. The identifying fields hold whatever
      JSON value the API sent; memory is converted to MiB. */
  datatype VmInfo = VmInfo(
    vmid: Value,
    name: Value,
    status: Value,
    cores: Value,
    memoryMb: int,
    ips: seq<string>)

  /** `entry.get("template", 0) == 1`. */
  predicate IsTemplate(entry: seq<(string, Value)>) {
    EqualsOne(GetOr(entry, "template", JInt(0)))
  }

  /** One non-template entry. A failed agent query leaves no addresses; a
      failed memory conversion makes the whole query fail (None). */
  function VmFromEntry(entry: seq<(string, Value)>, agent: Value -> Option<Value>): (r: Option<VmInfo>)
    ensures r.Some? <==>
      (FloorDivMiB(GetOr(entry, "maxmem", JInt(0))).Some?
       && (Lookup(entry, "name").None? ==> ScalarText(GetOr(entry, "vmid", JInt(0))).Some?))
    ensures r.Some? ==> r.value.vmid == GetOr(entry, "vmid", JInt(0))
    ensures r.Some? && Lookup(entry, "name").Some? ==> r.value.name == Lookup(entry, "name").value
    ensures r.Some? && Lookup(entry, "name").None? ==>
      r.value.name == JStr("vm-" + ScalarText(GetOr(entry, "vmid", JInt(0))).value)
    ensures r.Some? ==> r.value.status == GetOr(entry, "status", JStr("unknown"))
    ensures r.Some? ==> r.value.cores == GetOr(entry, "cpus", JInt(0))
    ensures r.Some? ==> Some(r.value.memoryMb) == FloorDivMiB(GetOr(entry, "maxmem", JInt(0)))
    ensures r.Some? && r.value.status != JStr("running") ==> r.value.ips == []
    ensures r.Some? && r.value.status == JStr("running") ==>
      r.value.ips == (match agent(r.value.vmid) case Some(resp) => VmIps(resp).GetOr([]) case None => [])
  {
    var vmid := GetOr(entry, "vmid", JInt(0));
    var name :- match Lookup(entry, "name")
      case Some(n) => Some(n)
      case None =>
        match ScalarText(vmid)
        case Some(t) => Some(JStr("vm-" + t))
        case None => None;
    var status := GetOr(entry, "status", JStr("unknown"));
    var memory :- FloorDivMiB(GetOr(entry, "maxmem", JInt(0)));
    var ips :=
      if status == JStr("running") then
        match agent(vmid)
        case Some(resp) => VmIps(resp).GetOr([])
        case None => []
      else [];
    Some(VmInfo(vmid, name, status, GetOr(entry, "cpus", JInt(0)), memory, ips))
  }

  /** The entries that are not templates, in input order. */
  function NonTemplates(entries: seq<seq<(string, Value)>>): (r: seq<seq<(string, Value)>>)
    ensures forall k :: 0 <= k < |r| ==> !IsTemplate(r[k])
    ensures forall e :: e in entries && !IsTemplate(e) <==> e in r
  {
    if |entries| == 0 then []
    else if IsTemplate(entries[0]) then NonTemplates(entries[1..])
    else [entries[0]] + NonTemplates(entries[1..])
  }

  /** Filtering distributes over concatenation, so the kept entries keep
      their input order and multiplicity. */
  lemma {:induction false} NonTemplatesAppend(a: seq<seq<(string, Value)>>, b: seq<seq<(string, Value)>>)
    ensures NonTemplates(a + b) == NonTemplates(a) + NonTemplates(b)
  {
    if |a| > 0 {
      assert (a + b)[0] == a[0];
      assert (a + b)[1..] == a[1..] + b;
      NonTemplatesAppend(a[1..], b);
    } else {
      assert a + b == b;
    }
  }

  /** A single entry is kept exactly when it is not a template. */
  lemma NonTemplatesSingle(e: seq<(string, Value)>)
    ensures NonTemplates([e]) == if IsTemplate(e) then [] else [e]
  {
    assert [e][1..] == [];
  }

  /** The loop of `_get_vms` over the entries. */
  function CollectVms(entries: seq<seq<(string, Value)>>, agent: Value -> Option<Value>): Option<seq<VmInfo>> {
    if |entries| == 0 then Some([])
    else if IsTemplate(entries[0]) then CollectVms(entries[1..], agent)
    else
      var vm :- VmFromEntry(entries[0], agent);
      var rest :- CollectVms(entries[1..], agent);
      Some([vm] + rest)
  }

  /** `_get_vms` on the decoded `/qemu` response; None when it raises. */
  function GetVms(resp: Value, agent: Value -> Option<Value>): Option<seq<VmInfo>> {
    if !resp.JObj? then None
    else
      var entries :- Objects(GetOr(resp.fields, "data", JList([])));
      CollectVms(entries, agent)
  }

  /** One converted VM in front of the rest, or a failure when either failed. */
  function ConsVm(x: Option<VmInfo>, y: Option<seq<VmInfo>>): Option<seq<VmInfo>> {
    if x.Some? && y.Some? then Some([x.value] + y.value) else None
  }

  /** Reference: convert every entry in order with `convert`, failing if any
      conversion fails. */
  function ConvertAll(entries: seq<seq<(string, Value)>>, convert: seq<(string, Value)> -> Option<VmInfo>): (r: Option<seq<VmInfo>>)
    ensures r.Some? <==> forall k :: 0 <= k < |entries| ==> convert(entries[k]).Some?
    ensures r.Some? ==> |r.value| == |entries|
    ensures r.Some? ==> forall k :: 0 <= k < |entries| ==> r.value[k] == convert(entries[k]).value
  {
    if |entries| == 0 then Some([])
    else
      var rest := ConvertAll(entries[1..], convert);
      assert forall k :: 1 <= k < |entries| ==> entries[k] == entries[1..][k - 1];
      ConsVm(convert(entries[0]), rest)
  }

  /** `_get_vms` is "drop the templates, then convert each remaining entry
      in order". */
  lemma {:induction false} CollectVmsIsFilterMap(entries: seq<seq<(string, Value)>>, agent: Value -> Option<Value>)
    ensures CollectVms(entries, agent) == ConvertAll(NonTemplates(entries), e => VmFromEntry(e, agent))
  {
    if |entries| > 0 {
      CollectVmsIsFilterMap(entries[1..], agent);
      if !IsTemplate(entries[0]) {
        assert ([entries[0]] + NonTemplates(entries[1..]))[1..] == NonTemplates(entries[1..]);
      }
    }
  }

  // ---------------------------------------------------------------------------
  // Node resources (`_get_node_resources`), integer fields only
  // ---------------------------------------------------------------------------

  /** `cpu_total` is stored as the API sent it; memory is in MiB. */
  datatype NodeResources = NodeResources(cpuTotal: Value, memoryTotalMb: int, memoryUsedMb: int)

  function ZeroResources(): NodeResources {
    NodeResources(JInt(0), 0, 0)
  }

  /** `value // (1024 * 1024)` and `value / (1024**3)` do not raise. */
  predicate Divisible(v: Value) {
    v.JInt? || v.JBool?
  }

  /** `data.get("data", {}).get(key, {})` of the `/status` response. */
  function StatusSection(resp: Value, key: string): Option<seq<(string, Value)>> {
    if !resp.JObj? then None
    else
      var status :- SubObject(resp.fields, "data");
      SubObject(status, key)
  }

  /** `_get_node_resources` on the decoded `/status` response; None when it raises. */
  function NodeResourcesOf(resp: Value): (r: Option<NodeResources>)
    ensures r.Some? <==>
      && StatusSection(resp, "cpuinfo").Some?
      && StatusSection(resp, "memory").Some?
      && StatusSection(resp, "rootfs").Some?
      && Divisible(GetOr(StatusSection(resp, "memory").value, "total", JInt(0)))
      && Divisible(GetOr(StatusSection(resp, "memory").value, "used", JInt(0)))
      && Divisible(GetOr(StatusSection(resp, "rootfs").value, "total", JInt(0)))
      && Divisible(GetOr(StatusSection(resp, "rootfs").value, "used", JInt(0)))
    ensures r.Some? ==>
      Some(r.value.memoryTotalMb) == FloorDivMiB(GetOr(StatusSection(resp, "memory").value, "total", JInt(0)))
    ensures r.Some? ==>
      Some(r.value.memoryUsedMb) == FloorDivMiB(GetOr(StatusSection(resp, "memory").value, "used", JInt(0)))
    ensures r.Some? ==> r.value.cpuTotal == GetOr(StatusSection(resp, "cpuinfo").value, "cpus", JInt(0))
  {
    var cpuInfo :- StatusSection(resp, "cpuinfo");
    var memory :- StatusSection(resp, "memory");
    var rootfs :- StatusSection(resp, "rootfs");
    var total :- FloorDivMiB(GetOr(memory, "total", JInt(0)));
    var used :- FloorDivMiB(GetOr(memory, "used", JInt(0)));
    if !Divisible(GetOr(rootfs, "total", JInt(0))) || !Divisible(GetOr(rootfs, "used", JInt(0))) then None
    else Some(NodeResources(GetOr(cpuInfo, "cpus", JInt(0)), total, used))
  }

  // ---------------------------------------------------------------------------
  // discover
  // ---------------------------------------------------------------------------

  datatype Context = Context(
    nodeName: string,
    resources: NodeResources,
    existingVms: seq<VmInfo>,
    usedIps: seq<string>)

  /** Every VM's addresses, in VM order. */
  function AllVmIps(vms: seq<VmInfo>): (r: seq<string>)
    ensures forall ip :: ip in r <==> exists k :: 0 <= k < |vms| && ip in vms[k].ips
  {
    if |vms| == 0 then []
    else
      assert forall k :: 1 <= k < |vms| ==> vms[k] == vms[1..][k - 1];
      assert forall k :: 0 <= k < |vms[1..]| ==> vms[1..][k] == vms[k + 1];
      vms[0].ips + AllVmIps(vms[1..])
  }

  /** The collected addresses are the VMs' address lists concatenated in VM
      order, duplicates included. */
  lemma {:induction false} AllVmIpsAppend(a: seq<VmInfo>, b: seq<VmInfo>)
    ensures AllVmIps(a + b) == AllVmIps(a) + AllVmIps(b)
  {
    if |a| > 0 {
      assert (a + b)[0] == a[0];
      assert (a + b)[1..] == a[1..] + b;
      AllVmIpsAppend(a[1..], b);
    } else {
      assert a + b == b;
    }
  }

  lemma AllVmIpsSingle(vm: VmInfo)
    ensures AllVmIps([vm]) == vm.ips
  {
    assert [vm][1..] == [];
  }

  /** `discover`: each failed sub-query leaves its default. */
  function Discover(
    targetNode: string,
    statusResp: Option<Value>,
    qemuResp: Option<Value>,
    agent: Value -> Option<Value>): (r: Context)
    ensures r.nodeName == targetNode
    ensures (statusResp.None? || NodeResourcesOf(statusResp.value).None?) ==> r.resources == ZeroResources()
    ensures statusResp.Some? && NodeResourcesOf(statusResp.value).Some? ==>
      r.resources == NodeResourcesOf(statusResp.value).value
    ensures (qemuResp.None? || GetVms(qemuResp.value, agent).None?) ==> r.existingVms == []
    ensures qemuResp.Some? && GetVms(qemuResp.value, agent).Some? ==>
      r.existingVms == GetVms(qemuResp.value, agent).value
    ensures r.usedIps == AllVmIps(r.existingVms)
    ensures forall ip :: ip in r.usedIps <==> exists k :: 0 <= k < |r.existingVms| && ip in r.existingVms[k].ips
  {
    var resources :=
      match statusResp
      case Some(v) => NodeResourcesOf(v).GetOr(ZeroResources())
      case None => ZeroResources();
    var vms :=
      match qemuResp
      case Some(v) => GetVms(v, agent).GetOr([])
      case None => [];
    Context(targetNode, resources, vms, AllVmIps(vms))
  }

  // ---------------------------------------------------------------------------
  // Prompt text (`to_prompt_text`), without the CPU and storage lines
  // ---------------------------------------------------------------------------

  /** f-string rendering of a JSON field; a list or dict renders as "". */
  function Show(v: Value): string {
    ScalarText(v).GetOr("")
  }

  const NoVmsLine: string := "=== No existing VMs found ==="
  const VmsHeading: string := "=== Existing VMs ==="
  const UsedIpsPrefix: string := "=== IPs already in use: "

  function HeaderLine(node: string): string {
    "=== Proxmox Host Resources (node: " + node + ") ==="
  }

  function MemoryLine(res: NodeResources): string {
    "  Memory:  " + IntToStr(res.memoryTotalMb) + " MB total, "
      + IntToStr(res.memoryUsedMb) + " MB used, "
      + IntToStr(res.memoryTotalMb - res.memoryUsedMb) + " MB available"
  }

  /** A VM's line: who it is, its size, and its addresses. */
  function VmLine(vm: VmInfo): string {
    VmIdentity(vm) + VmSize(vm) + VmAddresses(vm)
  }

  function VmIdentity(vm: VmInfo): string {
    "  - " + Show(vm.name) + " (VMID " + Show(vm.vmid) + ") — " + Show(vm.status) + ", "
  }

  function VmSize(vm: VmInfo): string {
    Show(vm.cores) + " cores, " + IntToStr(vm.memoryMb)
  }

  function VmAddresses(vm: VmInfo): string {
    " MB, IPs: " + (if |vm.ips| > 0 then Join(vm.ips, ", ") else "no IP")
  }

  function UsedIpsLine(used: seq<string>): string {
    UsedIpsPrefix + Join(Sorting.Sort(used), ", ") + " ==="
  }

  /** A VM line names the VM, its id and status, and ends with its addresses
      joined in order, or "no IP" when it has none. */
  lemma VmLineContent(vm: VmInfo)
    ensures StartsWith(VmLine(vm), "  - " + Show(vm.name) + " (VMID " + Show(vm.vmid) + ") — " + Show(vm.status) + ", ")
    ensures |vm.ips| == 0 ==> EndsWith(VmLine(vm), " MB, IPs: no IP")
    ensures |vm.ips| > 0 ==> EndsWith(VmLine(vm), " MB, IPs: " + Join(vm.ips, ", "))
  {
    ConcatParts(VmIdentity(vm), VmSize(vm), VmAddresses(vm));
  }

  /** One line per VM, in VM order. The ensures only exposes this map to the
      lemmas below; what a line says is stated by `VmLineContent`. */
  function VmLines(vms: seq<VmInfo>): (r: seq<string>)
    ensures |r| == |vms| && forall k :: 0 <= k < |vms| ==> r[k] == VmLine(vms[k])
  {
    seq(|vms|, k requires 0 <= k < |vms| => VmLine(vms[k]))
  }

  /** The lines `to_prompt_text` joins with newlines: header and memory, a
      blank and the VM heading or the no-VMs line, one line per VM, and a
      blank plus the in-use line when addresses are in use. */
  function PromptLines(ctx: Context): (r: seq<string>)
    ensures |r| == 4 + |ctx.existingVms| + (if |ctx.usedIps| > 0 then 2 else 0)
  {
    [HeaderLine(ctx.nodeName), MemoryLine(ctx.resources)]
      + (if |ctx.existingVms| > 0 then ["", VmsHeading] + VmLines(ctx.existingVms) else ["", NoVmsLine])
      + (if |ctx.usedIps| > 0 then ["", UsedIpsLine(ctx.usedIps)] else [])
  }

  function PromptText(ctx: Context): string {
    Join(PromptLines(ctx), "\n")
  }

  /** Every VM line is indented, so none is a section heading. */
  lemma VmLinesNotHeadings(vms: seq<VmInfo>)
    ensures NoVmsLine !in VmLines(vms) && VmsHeading !in VmLines(vms)
  {
    var lines := VmLines(vms);
    forall k | 0 <= k < |lines|
      ensures lines[k] != NoVmsLine && lines[k] != VmsHeading
    {
      assert lines[k][0] == ' ';
    }
  }

  /** The characters that tell the fixed lines apart. */
  lemma HeaderMark(node: string)
    ensures |HeaderLine(node)| > 4 && HeaderLine(node)[4] == 'P'
  {
  }

  lemma MemoryMark(res: NodeResources)
    ensures |MemoryLine(res)| > 0 && MemoryLine(res)[0] == ' '
  {
  }

  lemma UsedIpsMark(used: seq<string>)
    ensures |UsedIpsLine(used)| > 4 && UsedIpsLine(used)[4] == 'I'
  {
  }

  /** The header, memory and in-use lines are not section headings either. */
  lemma OtherLinesNotHeadings(ctx: Context)
    ensures
      var others := [HeaderLine(ctx.nodeName), MemoryLine(ctx.resources), "", UsedIpsLine(ctx.usedIps)];
      NoVmsLine !in others && VmsHeading !in others
  {
    assert NoVmsLine[4] == 'N' && VmsHeading[4] == 'E';
    HeaderMark(ctx.nodeName);
    MemoryMark(ctx.resources);
    UsedIpsMark(ctx.usedIps);
  }

  /** The "no existing VMs" section appears exactly when there are no VMs;
      otherwise the VM heading is followed by one line per VM. */
  lemma PromptVmSection(ctx: Context)
    ensures NoVmsLine in PromptLines(ctx) <==> |ctx.existingVms| == 0
    ensures VmsHeading in PromptLines(ctx) <==> |ctx.existingVms| > 0
  {
    var fixed := [HeaderLine(ctx.nodeName), MemoryLine(ctx.resources)];
    var vmLines := VmLines(ctx.existingVms);
    var ipPart := if |ctx.usedIps| > 0 then ["", UsedIpsLine(ctx.usedIps)] else [];
    VmLinesNotHeadings(ctx.existingVms);
    OtherLinesNotHeadings(ctx);
    assert NoVmsLine !in fixed && VmsHeading !in fixed;
    assert NoVmsLine !in ipPart && VmsHeading !in ipPart;
    if |ctx.existingVms| > 0 {
      assert PromptLines(ctx) == fixed + (["", VmsHeading] + vmLines) + ipPart;
    } else {
      assert PromptLines(ctx) == fixed + ["", NoVmsLine] + ipPart;
    }
  }

  /** A line starting with the in-use prefix starts "=" and has 'I' at index 4. */
  lemma IpLineMark(l: string)
    ensures StartsWith(l, UsedIpsPrefix) ==> l[0] == '=' && l[4] == 'I'
  {
    if StartsWith(l, UsedIpsPrefix) {
      assert l[..|UsedIpsPrefix|][0] == UsedIpsPrefix[0];
      assert l[..|UsedIpsPrefix|][4] == UsedIpsPrefix[4];
    }
  }

  /** No line of the VM section starts like the in-use line. */
  lemma VmPartIsNotIpLine(ctx: Context, l: string)
    requires l in (if |ctx.existingVms| > 0 then ["", VmsHeading] + VmLines(ctx.existingVms) else ["", NoVmsLine])
    ensures !StartsWith(l, UsedIpsPrefix)
  {
    IpLineMark(l);
    if |ctx.existingVms| > 0 && l in VmLines(ctx.existingVms) {
      var k :| 0 <= k < |ctx.existingVms| && VmLines(ctx.existingVms)[k] == l;
      assert l[0] == ' ';
    } else {
      assert l == "" || l == VmsHeading || l == NoVmsLine;
      assert VmsHeading[4] == 'E' && NoVmsLine[4] == 'N';
    }
  }

  /** The header and memory lines do not start like the in-use line. */
  lemma FixedLinesNotIpLine(ctx: Context)
    ensures !StartsWith(HeaderLine(ctx.nodeName), UsedIpsPrefix)
    ensures !StartsWith(MemoryLine(ctx.resources), UsedIpsPrefix)
  {
    IpLineMark(HeaderLine(ctx.nodeName));
    IpLineMark(MemoryLine(ctx.resources));
    HeaderMark(ctx.nodeName);
    MemoryMark(ctx.resources);
  }

  /** Without addresses in use, no line starts like the in-use line. */
  lemma NoIpLineWithoutIps(ctx: Context)
    requires |ctx.usedIps| == 0
    ensures forall l :: l in PromptLines(ctx) ==> !StartsWith(l, UsedIpsPrefix)
  {
    var fixed := [HeaderLine(ctx.nodeName), MemoryLine(ctx.resources)];
    var vmPart := if |ctx.existingVms| > 0 then ["", VmsHeading] + VmLines(ctx.existingVms) else ["", NoVmsLine];
    assert PromptLines(ctx) == fixed + vmPart;
    FixedLinesNotIpLine(ctx);
    forall l | l in vmPart
      ensures !StartsWith(l, UsedIpsPrefix)
    {
      VmPartIsNotIpLine(ctx, l);
    }
  }

  /** The in-use section appears exactly when some address is in use, and it
      lists the addresses sorted. */
  lemma PromptIpSection(ctx: Context)
    ensures (exists l :: l in PromptLines(ctx) && StartsWith(l, UsedIpsPrefix)) <==> |ctx.usedIps| > 0
    ensures |ctx.usedIps| > 0 ==>
      PromptLines(ctx)[|PromptLines(ctx)| - 1] == UsedIpsPrefix + Join(Sorting.Sort(ctx.usedIps), ", ") + " ==="
  {
    var lines := PromptLines(ctx);
    if |ctx.usedIps| > 0 {
      var u := UsedIpsLine(ctx.usedIps);
      assert lines[|lines| - 1] == u;
      assert u[..|UsedIpsPrefix|] == UsedIpsPrefix;
      assert u in lines && StartsWith(u, UsedIpsPrefix);
    } else {
      NoIpLineWithoutIps(ctx);
    }
  }
}
