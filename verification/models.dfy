/**
  The cluster specification (`agent/models.py`): per-role node sizing,
  Kubernetes and network settings, and the role-ordered address layout
  derived from the starting host offset.
 */
module Models {
  import opened Wrappers
  import opened Text
  import Json

  /** Hardware of one node role. */
  datatype NodeSpec = NodeSpec(cores: int, memoryMb: int, diskSize: string)

  /** Counts are plain Python ints: nothing stops them being negative, and a
      negative count simply yields no addresses (`range(n)` is empty). The
      add-on list holds whatever items the interpreted JSON carried. */
  datatype ClusterSpec = ClusterSpec(
    name: string,
    vmNamePrefix: string,
    controlPlaneCount: int,
    workerCount: int,
    controlPlaneSpec: NodeSpec,
    workerSpec: NodeSpec,
    k8sVersionMinor: string,
    k8sVersionFull: string,
    podNetworkCidr: string,
    cniPlugin: string,
    ipStart: int,
    ipPrefix: string,
    ipGateway: string,
    dnsServer: string,
    networkBridge: string,
    targetNode: string,
    templateId: int,
    storage: string,
    addons: seq<Json.Value>,
    sshUser: string,
    sshPassword: string)

  /** `ClusterSpec()` with every field at its declared default. */
  function DefaultSpec(): ClusterSpec {
    ClusterSpec(
      name := "k8s-cluster",
      vmNamePrefix := "k8s-node",
      controlPlaneCount := 1,
      workerCount := 2,
      controlPlaneSpec := NodeSpec(2, 4096, "20G"),
      workerSpec := NodeSpec(2, 2048, "20G"),
      k8sVersionMinor := "1.31",
      k8sVersionFull := "1.31.4-1.1",
      podNetworkCidr := "10.244.0.0/16",
      cniPlugin := "flannel",
      ipStart := 201,
      ipPrefix := "10.40.19.",
      ipGateway := "10.40.19.254",
      dnsServer := "10.40.2.1",
      networkBridge := "vmbr0",
      targetNode := "pve1",
      templateId := 990,
      storage := "local-lvm",
      addons := [],
      sshUser := "ubuntu",
      sshPassword := "ubuntu")
  }

  function TotalNodes(s: ClusterSpec): int {
    s.controlPlaneCount + s.workerCount
  }

  function Max0(n: int): nat {
    if n < 0 then 0 else n
  }

  /** `[start + i for i in range(n)]`. */
  function Offsets(start: int, n: int): (r: seq<int>)
    ensures |r| == Max0(n)
    ensures forall i :: 0 <= i < |r| ==> r[i] == start + i
  {
    if n <= 0 then [] else seq(n, i => start + i)
  }

  /** `f"{prefix}{offset}"`. */
  function Address(prefix: string, offset: int): string {
    prefix + IntToStr(offset)
  }

  function Addresses(prefix: string, offsets: seq<int>): (r: seq<string>)
    ensures |r| == |offsets|
    ensures forall i :: 0 <= i < |r| ==> r[i] == Address(prefix, offsets[i])
  {
    seq(|offsets|, i requires 0 <= i < |offsets| => Address(prefix, offsets[i]))
  }

  /** Control planes take the offsets `ipStart .. ipStart + cp - 1`. */
  function ControlPlaneIps(s: ClusterSpec): (r: seq<string>)
    ensures |r| == Max0(s.controlPlaneCount)
    ensures forall i :: 0 <= i < |r| ==> r[i] == Address(s.ipPrefix, s.ipStart + i)
  {
    Addresses(s.ipPrefix, Offsets(s.ipStart, s.controlPlaneCount))
  }

  /** Workers follow immediately after the control-plane count. */
  function WorkerIps(s: ClusterSpec): (r: seq<string>)
    ensures |r| == Max0(s.workerCount)
    ensures forall i :: 0 <= i < |r| ==> r[i] == Address(s.ipPrefix, s.ipStart + s.controlPlaneCount + i)
  {
    Addresses(s.ipPrefix, Offsets(s.ipStart + s.controlPlaneCount, s.workerCount))
  }

  /** Every node address in role order: control planes, then workers. */
  function AllIps(s: ClusterSpec): (r: seq<string>)
    ensures |r| == |ControlPlaneIps(s)| + |WorkerIps(s)|
    ensures r[..|ControlPlaneIps(s)|] == ControlPlaneIps(s)
    ensures r[|ControlPlaneIps(s)|..] == WorkerIps(s)
  {
    ControlPlaneIps(s) + WorkerIps(s)
  }

  /** With non-negative counts the layout is one contiguous block: entry `k`
      of `AllIps` is offset `ipStart + k`, and there are `TotalNodes` of them. */
  lemma AllIpsContiguous(s: ClusterSpec)
    requires s.controlPlaneCount >= 0 && s.workerCount >= 0
    ensures |AllIps(s)| == TotalNodes(s)
    ensures AllIps(s) == Addresses(s.ipPrefix, Offsets(s.ipStart, TotalNodes(s)))
  {
    var a := AllIps(s);
    var b := Addresses(s.ipPrefix, Offsets(s.ipStart, TotalNodes(s)));
    assert |a| == |b|;
    forall k | 0 <= k < |a|
      ensures a[k] == b[k]
    {
      AllIpsAt(s, k);
      assert b[k] == Address(s.ipPrefix, s.ipStart + k);
    }
  }

  /** Entry `k` of `AllIps`, whichever role it falls in, is offset `ipStart + k`. */
  lemma AllIpsAt(s: ClusterSpec, k: int)
    requires s.controlPlaneCount >= 0 && s.workerCount >= 0
    requires 0 <= k < |AllIps(s)|
    ensures AllIps(s)[k] == Address(s.ipPrefix, s.ipStart + k)
  {
    var cp := ControlPlaneIps(s);
    if k < |cp| {
      assert AllIps(s)[k] == cp[k];
    } else {
      var w := WorkerIps(s);
      var j := k - |cp|;
      assert AllIps(s)[k] == w[j];
      assert s.ipStart + s.controlPlaneCount + j == s.ipStart + k;
    }
  }

  /** With non-negative counts no two nodes share an address. */
  lemma AllIpsDistinct(s: ClusterSpec)
    requires s.controlPlaneCount >= 0 && s.workerCount >= 0
    ensures forall i, j :: 0 <= i < j < |AllIps(s)| ==> AllIps(s)[i] != AllIps(s)[j]
  {
    AllIpsContiguous(s);
    var a := AllIps(s);
    forall i, j | 0 <= i < j < |a|
      ensures a[i] != a[j]
    {
      var p := s.ipPrefix;
      if a[i] == a[j] {
        assert a[i] == p + IntToStr(s.ipStart + i);
        assert a[j] == p + IntToStr(s.ipStart + j);
        assert IntToStr(s.ipStart + i) == a[i][|p|..];
        assert IntToStr(s.ipStart + j) == a[j][|p|..];
        IntToStrInjective(s.ipStart + i, s.ipStart + j);
      }
    }
  }

  /** The decimal text of the default addresses' last octets. */
  lemma DefaultOctets()
    ensures IntToStr(201) == "201" && IntToStr(202) == "202" && IntToStr(203) == "203"
  {
    assert NatToStr(2) == "2";
    assert NatToStr(20) == "20";
  }

  /** The default layout: one control plane then two workers from .201. */
  lemma DefaultLayout()
    ensures AllIps(DefaultSpec()) == ["10.40.19.201", "10.40.19.202", "10.40.19.203"]
  {
    var s := DefaultSpec();
    DefaultOctets();
    var cp := ControlPlaneIps(s);
    var w := WorkerIps(s);
    assert |cp| == 1 && cp[0] == "10.40.19." + IntToStr(201);
    assert |w| == 2 && w[0] == "10.40.19." + IntToStr(202) && w[1] == "10.40.19." + IntToStr(203);
    assert "10.40.19." + "201" == "10.40.19.201";
    assert "10.40.19." + "202" == "10.40.19.202";
    assert "10.40.19." + "203" == "10.40.19.203";
    assert cp == ["10.40.19.201"];
    assert w == ["10.40.19.202", "10.40.19.203"];
    assert AllIps(s) == cp + w;
  }

  /** The declared defaults: 1 control plane of 2 cores / 4096 MB, 2 workers of
      2 cores / 2048 MB, offsets from 201, flannel on 10.244.0.0/16, no add-ons. */
  lemma DefaultShape()
    ensures var s := DefaultSpec();
      && s.controlPlaneCount == 1 && s.controlPlaneSpec.cores == 2 && s.controlPlaneSpec.memoryMb == 4096
      && s.workerCount == 2 && s.workerSpec.cores == 2 && s.workerSpec.memoryMb == 2048
      && s.ipStart == 201 && s.cniPlugin == "flannel" && s.podNetworkCidr == "10.244.0.0/16"
      && s.addons == [] && TotalNodes(s) == 3
  {
  }

  // ---------------------------------------------------------------------------
  // Summary box: the worker rows
  // ---------------------------------------------------------------------------

  /** The worker IPs printed in the summary: at most the first three. */
  function ShownWorkerIps(s: ClusterSpec): (r: seq<string>)
    ensures |r| <= 3 && |r| <= |WorkerIps(s)| && r == WorkerIps(s)[..|r|]
    ensures |r| == |WorkerIps(s)| || |r| == 3
  {
    var w := WorkerIps(s);
    if |w| > 3 then w[..3] else w
  }

  /** The "... +N more" line printed under the worker IPs, when there is one. */
  function OverflowLine(s: ClusterSpec): Option<string> {
    var w := WorkerIps(s);
    if |w| > 3 then
      Some("║" + Spaces(18) + "... +" + IntToStr(|w| - 3) + " more" + Spaces(22) + "║")
    else None
  }

  function Spaces(n: nat): (r: string)
    ensures |r| == n && forall i :: 0 <= i < n ==> r[i] == ' '
  {
    seq(n, _ => ' ')
  }

  /** The overflow line appears exactly when there are more than three
      workers, and it counts the workers not shown. */
  lemma OverflowRule(s: ClusterSpec)
    ensures OverflowLine(s).Some? <==> s.workerCount > 3
    ensures OverflowLine(s).Some? ==>
      OverflowLine(s).value
        == "║" + Spaces(18) + "... +" + IntToStr(s.workerCount - 3) + " more" + Spaces(22) + "║"
    ensures OverflowLine(s).Some? ==> |ShownWorkerIps(s)| + (s.workerCount - 3) == s.workerCount
    ensures OverflowLine(s).None? ==> ShownWorkerIps(s) == WorkerIps(s)
  {
  }
}
