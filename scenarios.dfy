/** Example scans stated on the model: a refused port, an HTTP banner, three
    closed ports scanned two at a time, and an open port that the table does
    not list. The first three start from the `--port-range` text. */
module Scenarios {
  // The argument text is a parameter pinned by a `requires` rather than a
  // literal inside the call, which keeps Dafny from unfolding the parse of a
  // string literal eagerly.

  import opened Wrappers
  import opened Services
  import opened Scanner
  import opened PortRange

  /** The argument "22-22" selects port 22 alone. */
  lemma PortRange22(arg: string)
    requires arg == "22-22"
    ensures ParsePortRange(arg) == Ok([22])
  {
    BoundedPorts(22, 22);
    assert Decimal(22) + "-" + Decimal(22) == arg;
    assert Range(22, 23) == [22];
  }

  /** The argument "80-80" selects port 80 alone. */
  lemma PortRange80(arg: string)
    requires arg == "80-80"
    ensures ParsePortRange(arg) == Ok([80])
  {
    BoundedPorts(80, 80);
    assert Decimal(80) + "-" + Decimal(80) == arg;
    assert Range(80, 81) == [80];
  }

  /** The argument "1-3" selects the ports 1, 2 and 3. */
  lemma PortRange1To3(arg: string)
    requires arg == "1-3"
    ensures ParsePortRange(arg) == Ok([1, 2, 3])
  {
    BoundedPorts(1, 3);
    assert Decimal(1) + "-" + Decimal(3) == arg;
    assert Range(1, 4) == [1, 2, 3];
  }

  /** Scanning "22-22" on a host that refuses the connection gives one Closed
      record. */
  lemma RefusedPort(ip: string, arg: string, getBanner: BannerProbe)
    requires arg == "22-22" && getBanner(ip, 22) == None
    ensures ParsePortRange(arg).Ok?
    ensures ScanAll(ip, ParsePortRange(arg).value, getBanner) == [ScanResult(ip, 22, "Closed", None)]
  {
    PortRange22(arg);
  }

  /** Scanning "80-80" where port 80 answers "HTTP/1.1 200 OK" gives one
      record classified as HTTP that keeps the banner. */
  lemma HttpBanner(ip: string, arg: string, getBanner: BannerProbe)
    requires arg == "80-80" && getBanner(ip, 80) == Some("HTTP/1.1 200 OK")
    ensures ParsePortRange(arg).Ok?
    ensures ScanAll(ip, ParsePortRange(arg).value, getBanner) ==
      [ScanResult(ip, 80, "HTTP (HyperText Transfer Protocol)", Some("HTTP/1.1 200 OK"))]
  {
    PortRange80(arg);
  }

  /** Scanning "1-3" on a host with every port closed gives three Closed
      records, one per port in order. */
  lemma ThreeClosedPorts(ip: string, arg: string, getBanner: BannerProbe)
    requires arg == "1-3" && forall p :: getBanner(ip, p) == None
    ensures ParsePortRange(arg).Ok?
    ensures var rs := ScanAll(ip, ParsePortRange(arg).value, getBanner);
      |rs| == 3 && forall i :: 0 <= i < 3 ==> rs[i] == ScanResult(ip, i + 1, Closed, None)
  {
    PortRange1To3(arg);
    var ports := [1, 2, 3];
    forall i | 0 <= i < 3
      ensures ScanAll(ip, ports, getBanner)[i] == ScanResult(ip, i + 1, Closed, None)
    {
      ScanAllAt(ip, ports, getBanner, i);
    }
  }

  /** The ports 1 to 3 scanned with two threads are joined as a batch of two
      followed by a batch of one. */
  lemma TwoThreadBatches(batches: seq<seq<int>>)
    requires IsBatching(batches, [1, 2, 3], BatchLimit(2))
    ensures batches == [[1, 2], [3]]
  {
    var expected := [[1, 2], [3]];
    assert Flatten(expected) == [1, 2] + ([3] + []);
    BatchingUnique(batches, expected, [1, 2, 3], 2);
  }

  /** An open port outside the table keeps its banner under "Unknown Service". */
  lemma UnlistedOpenPort(ip: string, getBanner: BannerProbe)
    requires getBanner(ip, 9999) == Some("hello")
    ensures ScanAll(ip, [9999], getBanner) == [ScanResult(ip, 9999, "Unknown Service", Some("hello"))]
  {
  }
}
