/** The scan coordinator (Portscanner.py, lines 44-74): one record per probed
    port, collected into a shared list while probes are started and joined in
    batches of at most `num_threads`. The socket probe is an oracle and the
    threads run one after the other, each probe completing when it is started. */
module Scanner {
  import opened Wrappers
  import opened Services

  /** One entry of the scan output: `{ip, port, service, banner}`. */
  datatype ScanResult = ScanResult(ip: string, port: int, service: string, banner: Option<string>)

  /** The banner probe: what `get_banner(ip, port)` returns, the stripped text
      read from the port or `None` when connecting or reading raised
      `socket.timeout` or `socket.error`. */
  type BannerProbe = (string, int) -> Option<string>

  /** Python truthiness of a banner (`if banner:`): of the values a probe can
      return, exactly `None` and the empty string are false. */
  predicate Truthy(banner: Option<string>) {
    banner.Some? && banner.value != ""
  }

  /** The record `scan_port` builds for a port whose probe gave `banner`. A
      port with a non-empty banner is classified and keeps its banner; any
      other port is "Closed" with no banner, and "Closed" marks exactly the
      records without a banner. */
  function PortResult(ip: string, port: int, banner: Option<string>): (r: ScanResult)
    ensures r.ip == ip && r.port == port
    ensures Truthy(banner) ==> r.banner == banner && r.service == CategorizeService(port)
    ensures !Truthy(banner) ==> r.banner == None && r.service == Closed
    ensures r.service == Closed <==> r.banner == None
    ensures r.banner.Some? ==> r.banner.value != ""
  {
    if Truthy(banner) then ScanResult(ip, port, CategorizeService(port), banner)
    else ScanResult(ip, port, Closed, None)
  }

  /** The list object that `scan_port` appends to and `scan_ports` returns. */
  class ResultList {
    var items: seq<ScanResult>

    constructor ()
      ensures items == []
    {
      items := [];
    }
  }

  /** Probes one port and appends exactly one record to `output`, leaving the
      records already there unchanged. */
  method ScanPort(ip: string, port: int, output: ResultList, getBanner: BannerProbe)
    modifies output
    ensures output.items == old(output.items) + [PortResult(ip, port, getBanner(ip, port))]
  {
    var banner := getBanner(ip, port);
    if banner.Some? && banner.value != "" {
      var service := CategorizeService(port);
      output.items := output.items + [ScanResult(ip, port, service, banner)];
    } else {
      output.items := output.items + [ScanResult(ip, port, Closed, None)];
    }
  }

  /** The records a sequential scan of `ports` collects, in probe order. */
  function ScanAll(ip: string, ports: seq<int>, getBanner: BannerProbe): (rs: seq<ScanResult>)
    ensures |rs| == |ports|
  {
    if ports == [] then []
    else
      var last := ports[|ports| - 1];
      ScanAll(ip, ports[..|ports| - 1], getBanner) + [PortResult(ip, last, getBanner(ip, last))]
  }

  /** The port of each record, in order. */
  function PortsOf(rs: seq<ScanResult>): (ps: seq<int>)
    ensures |ps| == |rs|
    ensures forall i :: 0 <= i < |rs| ==> ps[i] == rs[i].port
  {
    seq(|rs|, i requires 0 <= i < |rs| => rs[i].port)
  }

  /** The i-th record of a scan is the record of the i-th port. */
  lemma {:induction false} ScanAllAt(ip: string, ports: seq<int>, getBanner: BannerProbe, i: int)
    requires 0 <= i < |ports|
    ensures ScanAll(ip, ports, getBanner)[i] == PortResult(ip, ports[i], getBanner(ip, ports[i]))
  {
    if i < |ports| - 1 {
      ScanAllAt(ip, ports[..|ports| - 1], getBanner, i);
    }
  }

  /** Every port yields exactly one record, in input order: the ports of the
      output are the input ports, so the two agree as multisets too. */
  lemma {:induction false} ScanCoversEveryPort(ip: string, ports: seq<int>, getBanner: BannerProbe)
    ensures PortsOf(ScanAll(ip, ports, getBanner)) == ports
    ensures multiset(PortsOf(ScanAll(ip, ports, getBanner))) == multiset(ports)
  {
    var rs := ScanAll(ip, ports, getBanner);
    forall i | 0 <= i < |ports|
      ensures PortsOf(rs)[i] == ports[i]
    {
      ScanAllAt(ip, ports, getBanner, i);
    }
  }

  /** No two entries of `ports` are the same port. */
  predicate NoDuplicates(ports: seq<int>) {
    forall i, j :: 0 <= i < j < |ports| ==> ports[i] != ports[j]
  }

  /** For a port range without repeats, each input port has exactly one
      record in the output, and every record is for an input port. */
  lemma ScanRecordsEachPortOnce(ip: string, ports: seq<int>, getBanner: BannerProbe, p: int)
    requires NoDuplicates(ports)
    ensures var rs := ScanAll(ip, ports, getBanner);
      p in ports <==> exists i :: 0 <= i < |rs| && rs[i].port == p
    ensures var rs := ScanAll(ip, ports, getBanner);
      forall i, j :: 0 <= i < |rs| && 0 <= j < |rs| && rs[i].port == p && rs[j].port == p ==> i == j
  {
    var rs := ScanAll(ip, ports, getBanner);
    ScanCoversEveryPort(ip, ports, getBanner);
    assert forall i :: 0 <= i < |rs| ==> rs[i].port == ports[i] by {
      forall i | 0 <= i < |rs| ensures rs[i].port == ports[i] {
        assert PortsOf(rs)[i] == rs[i].port;
      }
    }
  }

  /** Every record of a scan is "Closed" exactly when it carries no banner,
      and a banner it carries is never empty. */
  lemma {:induction false} ScanClosedIffNoBanner(ip: string, ports: seq<int>, getBanner: BannerProbe)
    ensures forall r :: r in ScanAll(ip, ports, getBanner) ==> (r.service == Closed <==> r.banner == None)
    ensures forall r :: r in ScanAll(ip, ports, getBanner) && r.banner.Some? ==> r.banner.value != ""
  {
    var rs := ScanAll(ip, ports, getBanner);
    forall r | r in rs
      ensures r.service == Closed <==> r.banner == None
      ensures r.banner.Some? ==> r.banner.value != ""
    {
      var i :| 0 <= i < |rs| && rs[i] == r;
      ScanAllAt(ip, ports, getBanner, i);
    }
  }

  /** The most probes `scan_ports` lets run before it joins them: the thread
      count, or a single probe when the count is zero or negative. */
  function BatchLimit(numThreads: int): (limit: int)
    ensures limit >= 1 && limit >= numThreads
    ensures limit == 1 || limit == numThreads
  {
    if numThreads < 1 then 1 else numThreads
  }

  /** The ports of a sequence of batches, one batch after the other. */
  function Flatten(batches: seq<seq<int>>): (ps: seq<int>)
  {
    if batches == [] then [] else batches[0] + Flatten(batches[1..])
  }

  /** Joining one more batch appends its ports to those joined so far. */
  lemma {:induction false} FlattenAppend(batches: seq<seq<int>>, b: seq<int>)
    ensures Flatten(batches + [b]) == Flatten(batches) + b
  {
    if batches != [] {
      assert (batches + [b])[1..] == batches[1..] + [b];
      FlattenAppend(batches[1..], b);
    }
  }

  /** The join barriers of a scan: every port is in exactly one batch, in
      input order; no batch is empty or larger than `limit`; and every batch
      but the last is full. */
  predicate IsBatching(batches: seq<seq<int>>, ports: seq<int>, limit: int) {
    && Flatten(batches) == ports
    && (forall k :: 0 <= k < |batches| ==> 0 < |batches[k]| <= limit)
    && (forall k :: 0 <= k < |batches| - 1 ==> |batches[k]| == limit)
  }

  /** Scans `ports` of `ip`, starting a probe per port and joining the
      pending probes whenever `num_threads` of them are outstanding, then the
      rest. Returns one record per port, in input order; the ghost `joined`
      lists the batches joined together, which satisfy IsBatching for the
      limit max(num_threads, 1), so no batch ever exceeds it. */
  method ScanPorts(ip: string, ports: seq<int>, numThreads: int, getBanner: BannerProbe)
    returns (results: seq<ScanResult>, ghost joined: seq<seq<int>>)
    ensures results == ScanAll(ip, ports, getBanner)
    ensures IsBatching(joined, ports, BatchLimit(numThreads))
  {
    var output := new ResultList();
    var threads: seq<int> := [];
    ghost var limit := BatchLimit(numThreads);
    joined := [];
    for i := 0 to |ports|
      invariant output.items == ScanAll(ip, ports[..i], getBanner)
      invariant Flatten(joined) + threads == ports[..i]
      invariant |threads| < limit
      invariant forall k :: 0 <= k < |joined| ==> |joined[k]| == limit
    {
      var port := ports[i];
      ScanAllPrefix(ip, ports, getBanner, i);
      StartProbe(Flatten(joined), threads, ports, i);
      threads := threads + [port];
      ScanPort(ip, port, output, getBanner);
      if |threads| >= numThreads {
        Flush(joined, threads, ports[..i + 1], limit);
        joined := joined + [threads];
        threads := [];
      }
    }
    assert ports[..|ports|] == ports;
    LastBatch(joined, threads, ports, limit);
    if threads != [] {
      joined := joined + [threads];
    }
    results := output.items;
  }

  /** Scanning one more port of the input appends that port's record. */
  lemma ScanAllPrefix(ip: string, ports: seq<int>, getBanner: BannerProbe, i: int)
    requires 0 <= i < |ports|
    ensures ports[..i + 1] == ports[..i] + [ports[i]]
    ensures ScanAll(ip, ports[..i + 1], getBanner)
      == ScanAll(ip, ports[..i], getBanner) + [PortResult(ip, ports[i], getBanner(ip, ports[i]))]
  {
    assert ports[..i + 1][..i] == ports[..i];
  }

  /** Starting the probe of the next port adds it to the pending ones. */
  lemma StartProbe(done: seq<int>, pending: seq<int>, ports: seq<int>, i: int)
    requires 0 <= i < |ports| && done + pending == ports[..i]
    ensures done + (pending + [ports[i]]) == ports[..i + 1]
  {
    assert ports[..i + 1] == ports[..i] + [ports[i]];
  }

  /** Joining a full batch of pending probes keeps every joined batch full. */
  lemma Flush(joined: seq<seq<int>>, pending: seq<int>, prefix: seq<int>, limit: int)
    requires Flatten(joined) + pending == prefix
    requires |pending| == limit
    requires forall k :: 0 <= k < |joined| ==> |joined[k]| == limit
    ensures Flatten(joined + [pending]) == prefix
    ensures forall k :: 0 <= k < |joined| + 1 ==> |(joined + [pending])[k]| == limit
  {
    FlattenAppend(joined, pending);
  }

  /** Joining what is still pending after the loop completes the batching. */
  lemma LastBatch(joined: seq<seq<int>>, pending: seq<int>, ports: seq<int>, limit: int)
    requires Flatten(joined) + pending == ports
    requires |pending| < limit
    requires forall k :: 0 <= k < |joined| ==> |joined[k]| == limit
    ensures IsBatching(if pending == [] then joined else joined + [pending], ports, limit)
  {
    if pending == [] {
      assert Flatten(joined) == ports;
    } else {
      FlattenAppend(joined, pending);
    }
  }

  /** The join batches of a scan are determined by the ports and the limit:
      any two batchings of the same ports under the same limit are equal. */
  lemma {:induction false} BatchingUnique(b1: seq<seq<int>>, b2: seq<seq<int>>, ports: seq<int>, limit: int)
    requires IsBatching(b1, ports, limit) && IsBatching(b2, ports, limit)
    ensures b1 == b2
    decreases |ports|
  {
    if b1 != [] && b2 != [] {
      BatchingSplit(b1, ports, limit);
      BatchingSplit(b2, ports, limit);
      assert b1[0] == b2[0];
      if |b1| > 1 {
        BatchingUnique(b1[1..], b2[1..], ports[|b1[0]|..], limit);
      }
    }
  }

  /** A non-empty batching starts with the whole input when it fits within
      the limit and with a full batch otherwise; the other batches are a
      batching of what follows the first. */
  lemma BatchingSplit(batches: seq<seq<int>>, ports: seq<int>, limit: int)
    requires IsBatching(batches, ports, limit) && batches != []
    ensures |ports| <= limit ==> batches == [ports]
    ensures |ports| > limit ==> |batches| > 1 && batches[0] == ports[..limit]
    ensures IsBatching(batches[1..], ports[|batches[0]|..], limit)
  {
    var rest := Flatten(batches[1..]);
    assert ports == batches[0] + rest;
    if |batches| > 1 {
      assert |rest| >= |batches[1]| > 0;
    } else {
      assert batches[1..] == [] && rest == [];
      assert ports == batches[0] + [] == batches[0];
      assert batches == [batches[0]];
    }
  }

  /** With a thread count of zero or less, every probe is joined on its own:
      the scan makes one batch per port and does not stall. */
  lemma {:induction false} NonPositiveThreadsJoinEachPort(batches: seq<seq<int>>, ports: seq<int>, numThreads: int)
    requires numThreads <= 0 && IsBatching(batches, ports, BatchLimit(numThreads))
    ensures |batches| == |ports|
    ensures forall k :: 0 <= k < |ports| ==> batches[k] == [ports[k]]
    decreases |ports|
  {
    if batches != [] {
      BatchingSplit(batches, ports, 1);
      NonPositiveThreadsJoinEachPort(batches[1..], ports[1..], numThreads);
    }
  }
}
