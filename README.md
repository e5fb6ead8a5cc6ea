# Port scanner: result building, batching and port ranges

This project models the core of a small TCP port scanner (`Portscanner.py`) and
proves properties of that model. The scanner probes a host's ports, reads a
service banner from each open port and classifies the port against a fixed
table of well-known services. It starts one probe per port and joins the
pending probes in batches of `num_threads`. The result is one record
`{ip, port, service, banner}` per port.

The model has four modules:

- `Services` (services.dfy): the service table `SERVICE_CATEGORIES` and
  `categorize_service`. This is a total lookup. Ports outside the table get the
  sentinel "Unknown Service", and no label equals the scanner's "Closed" sentinel.
- `Scanner` (scanner.dfy) covers two functions.
  - `scan_port` is the method `ScanPort`. It appends exactly one record to
    the caller's `output` list, which is modelled as the class `ResultList`.
  - `scan_ports` is the method `ScanPorts`. It is a loop over the ports with a
    pending `threads` list that is flushed once it reaches `num_threads`, and
    joined once more at the end.
  - `ScanPorts` is proved against the specification function `ScanAll`. Its
    ghost out-parameter `joined` records the batches that were joined
    together. The predicate `IsBatching` states the batching property.
- `PortRange` (port_range.dfy) models the `--port-range` expansion in `main`.
  - `"all"` expands to 1 to 65535.
  - Any other text goes through Python's `str.split('-')`, `int()` and the
    two-target unpacking, and then through `range(start, end + 1)`.
- `Scenarios` (scenarios.dfy) states example scans on the model: the
  arguments "22-22", "80-80" and "1-3" are parsed and scanned, and ports 1 to 3
  are batched with two threads.

`get_banner` is not modelled. In its place is a parameter `getBanner` of type
`(string, int) -> Option<string>`: the stripped banner, or `None` when
`connect` or `recv` raised `socket.timeout` or `socket.error` on a socket that
was created. The oracle is total: every probe returns one of these. The cases
where `get_banner` raises instead of returning are listed under Left out. The threads are modelled as
running one after the other. Each probe completes and appends its record when
it is started. The `threads` list is a real sequence of the ports whose probes
are pending.

Some behaviours of the code are easy to misread:

- Banner decoding. A banner that cannot be decoded is not turned into
  "Closed". The code catches only `socket.timeout` and `socket.error`
  (Portscanner.py:38), so a `UnicodeDecodeError` from `.decode()`
  (Portscanner.py:36) escapes the thread and no record is appended for that
  port. Decode failures are listed under Left out.
- Inverted ranges. The code turns `"9-3"` into an empty `range`
  (Portscanner.py:92), and so does `ParsePortRange`.
- Malformed ranges. `int()` or the unpacking at Portscanner.py:91 raises
  `ValueError`. The model returns these as `Err` results, with the error that
  Python's unpacking reports first.
- Thread count. A thread count of zero or less is not clamped. None is needed,
  because `len(threads) >= num_threads` (Portscanner.py:66) already holds
  after every start, so each probe is joined on its own. `BatchLimit` names the
  effective limit.

## Model

| member | source | states |
|---|---|---|
| `Services.CategorizeService` | Portscanner.py:8-28 | Total and pure. A table port gets its table label. The result is "Unknown Service" exactly when the port is not one of the 15 known ports. The result is never "Closed". |
| `Services.KnownPortsAreTableKeys` | Portscanner.py:8-24 | The table lists exactly the ports 20, 21, 22, 23, 25, 53, 80, 110, 143, 443, 3306, 5432, 6379, 27017 and 8080. |
| `Scanner.PortResult` | Portscanner.py:45-55 | A truthy banner gives a record with the port's classification and that banner. `None` or an empty banner gives "Closed" with no banner. `service == "Closed"` holds exactly when the banner is absent, and a present banner is never empty. `Truthy` is the `if banner:` test at Portscanner.py:46: `None` and the empty string are false. |
| `Scanner.ResultList.constructor` | Portscanner.py:59 | The output list starts empty. |
| `Scanner.ScanPort` | Portscanner.py:44-55 | Appends exactly one record, the one `PortResult` gives for the probe's outcome. The records already in the list are unchanged. |
| `Scanner.ScanAll` | Portscanner.py:58-74 | The sequential scan yields as many records as there are ports. |
| `Scanner.ScanAllAt` | Portscanner.py:61-64 | The i-th record of a scan is the record of the i-th port, built from that port's probe. |
| `Scanner.ScanAllPrefix` | Portscanner.py:61-64 | Starting the probe of one more port appends exactly that port's record. |
| `Scanner.ScanCoversEveryPort` | Portscanner.py:58-74 | The ports of the output are the input ports in input order, so they are equal as multisets: no port is lost or duplicated. |
| `Scanner.ScanRecordsEachPortOnce` | Portscanner.py:58-74 | For ports without repeats, a port has a record exactly when it is in the input, and at most one record. |
| `Scanner.ScanClosedIffNoBanner` | Portscanner.py:46-55 | Every record of a scan is "Closed" exactly when it has no banner, and no record carries an empty banner. |
| `Scanner.BatchLimit` | Portscanner.py:66 | The effective batch size is at least 1 and at least `num_threads`, and it is either 1 or `num_threads`. |
| `Scanner.ScanPorts` | Portscanner.py:58-74 | Returns exactly `ScanAll` of the ports. The joined batches cover every port once, in order. Each batch is non-empty and at most `max(num_threads, 1)` long. Every batch except the last is full. All probes are joined before the return. |
| `Scanner.StartProbe` | Portscanner.py:61-63 | Starting a probe adds its port to the pending list, keeping joined plus pending equal to the ports seen so far. |
| `Scanner.Flush` | Portscanner.py:66-69 | Joining a full pending list keeps every joined batch full and the joined ports equal to the ports seen so far. |
| `Scanner.LastBatch` | Portscanner.py:71-72 | Joining what is still pending after the loop completes a valid batching of all ports. |
| `Scanner.FlattenAppend` | Portscanner.py:67-69 | Joining one more batch appends its ports to the ports joined so far. |
| `Scanner.BatchingSplit` | Portscanner.py:66-69 | The first batch is the whole input when that fits within the limit, and otherwise the first `limit` ports. The remaining batches batch the rest. |
| `Scanner.BatchingUnique` | Portscanner.py:60-72 | The batching property fixes the batches. Two batchings of the same ports under the same limit are equal, so the join schedule is determined. |
| `Scanner.NonPositiveThreadsJoinEachPort` | Portscanner.py:66-69 | With `num_threads <= 0`, there is one batch per port, holding exactly that port, so every probe is joined on its own. |
| `PortRange.Range` | Portscanner.py:89-92 | Python's `range(lo, hi)` has `hi - lo` elements, or none when `lo >= hi`, and its i-th element is `lo + i`. |
| `PortRange.RangeMembers` | Portscanner.py:89-92 | A range holds exactly the integers from `lo` up to, but not including, `hi`, and holds each of them once. |
| `PortRange.Split` | Portscanner.py:91 | `str.split` yields at least one part. No part contains the separator, and joining the parts gives back the text. |
| `PortRange.SplitPiece` | Portscanner.py:91 | A separator-free piece followed by the separator splits off as its own part. |
| `PortRange.SplitWhole` | Portscanner.py:91 | Text without the separator splits into one part, the text itself. |
| `PortRange.SplitJoin` | Portscanner.py:91 | Splitting undoes joining separator-free parts. |
| `PortRange.TrimLeftDrops` | Portscanner.py:91 | The whitespace `int()` skips at the front (space, `\t`, `\n`, `\v`, `\f`, `\r`): what is left is a suffix of the text, everything dropped is whitespace, and what is left does not start with whitespace. |
| `PortRange.TrimRightDrops` | Portscanner.py:91 | The whitespace `int()` skips at the end (space, `\t`, `\n`, `\v`, `\f`, `\r`): what is left is a prefix of the text, everything dropped is whitespace, and what is left does not end with whitespace. |
| `PortRange.ParseInt` | Portscanner.py:91 | `int()` on text without a '-' never gives a negative number, so a part of the '-' split is never negative. |
| `PortRange.SignFromText` | Portscanner.py:91 | The sign `int()` reads after skipping the surrounding whitespace is a character of the text. |
| `PortRange.BlankIsNotAnInteger` | Portscanner.py:91 | `int()` refuses text that is empty or only whitespace. |
| `PortRange.Decimal` | Portscanner.py:91 | The decimal text of a natural number is a non-empty string of digits. |
| `PortRange.DigitsValueOfDecimal` | Portscanner.py:91 | The digit string of `n` has the value `n`. |
| `PortRange.DecimalIsDigitGroup` | Portscanner.py:91 | The decimal text of `n` is a digit group that `int()` accepts, with no whitespace at either end. |
| `PortRange.ParseIntOfDecimal` | Portscanner.py:91 | `int()` reads the decimal text of `n` back as `n`. |
| `PortRange.SeparatorIsNotSpace` | Portscanner.py:91 | `int()` refuses a number preceded by `\x1c`, which `str.strip()` removes but `int()` does not skip. |
| `PortRange.ParseIntOfNegative` | Portscanner.py:91 | `int()` reads '-' followed by the decimal text of `n` as `-n`. |
| `PortRange.UnpackBounds` | Portscanner.py:91 | `start, end = map(int, parts)` succeeds exactly when there are two parts and `int()` accepts both, and then gives both values. A part named in an error is one of the parts. |
| `PortRange.UnpackDecimals` | Portscanner.py:91 | Two decimal parts unpack to their values. |
| `PortRange.ParsePortRange` | Portscanner.py:88-92 | `"all"` gives `range(1, 65536)`. Any other text succeeds exactly when it splits at '-' into two parts that `int()` accepts. |
| `PortRange.ParsedRangeMembers` | Portscanner.py:90-92 | An accepted `"<start>-<end>"` holds exactly the ports from start to end inclusive, each once, and none of them is negative. |
| `PortRange.AllPorts` | Portscanner.py:88-89 | `"all"` expands to 65535 ports, exactly 1 to 65535, with no repeats. |
| `PortRange.SplitBounds` | Portscanner.py:91 | `"<a>-<b>"` in decimal is not `"all"` and splits into the two decimal parts. |
| `PortRange.BoundedPorts` | Portscanner.py:90-92 | `"<a>-<b>"` in decimal expands to `range(a, b + 1)`: `b - a + 1` ports, or none when `a > b`. |
| `Scenarios.PortRange22` | Portscanner.py:90-92 | The argument "22-22" selects port 22 alone. |
| `Scenarios.PortRange80` | Portscanner.py:90-92 | The argument "80-80" selects port 80 alone. |
| `Scenarios.PortRange1To3` | Portscanner.py:90-92 | The argument "1-3" selects ports 1, 2 and 3 in that order. |
| `Scenarios.RefusedPort` | Portscanner.py:53-55 | Scanning "22-22" where port 22 refuses the connection gives one "Closed" record with no banner. |
| `Scenarios.HttpBanner` | Portscanner.py:46-49 | Scanning "80-80" where port 80 answers "HTTP/1.1 200 OK" gives one record labelled "HTTP (HyperText Transfer Protocol)" that keeps its banner. |
| `Scenarios.ThreeClosedPorts` | Portscanner.py:58-74 | Scanning "1-3" with every port closed gives three records, for ports 1, 2 and 3 in order, all "Closed" with no banner. |
| `Scenarios.TwoThreadBatches` | Portscanner.py:66-72 | Ports 1 to 3 with two threads are joined as `[1, 2]` and then `[3]`. |
| `Scenarios.UnlistedOpenPort` | Portscanner.py:27-28 | Open port 9999 with banner "hello" is labelled "Unknown Service" and keeps its banner. |

## Left out

- Socket I/O in `get_banner` (Portscanner.py:31-41) is replaced by the `getBanner` parameter: connect, the 1-second timeout, `recv(1024)`, decoding, stripping and closing.
- Decode failures: `.decode()` raising `UnicodeDecodeError` (Portscanner.py:36) is not caught, so the thread dies and that port gets no record. The oracle is total, so the model does not capture this.
- Ports outside 1-65535 are accepted by the range expansion, for example `"0-70000"`, as in the code (Portscanner.py:90-92).
- Port 0: `connect` raises an `OSError`, which is a `socket.error` and is caught (Portscanner.py:38), so the port gets a "Closed" record. The oracle returning `None` for it models this.
- Ports above 65535: `connect` (Portscanner.py:35) raises `OverflowError`, which is not a `socket.error` and is not caught, so the thread dies and the port gets no record.
- Failure to create the socket: when `socket.socket()` (Portscanner.py:33) raises, for example because a large thread count exhausts the file descriptors, the `except` catches the error. The `finally` then calls `close` on a name that was never assigned (Portscanner.py:41), and the resulting `UnboundLocalError` kills the thread, so the port gets no record.
- `Scanner.ScanCoversEveryPort`: it holds only because the oracle is total. For ports above 65535, for a socket that cannot be created and for a banner that cannot be decoded, the code appends no record for the port.
- `Scanner.ScanRecordsEachPortOnce`: it holds only because the oracle is total. For ports above 65535, for a socket that cannot be created and for a banner that cannot be decoded, the code appends no record for the port.
- The probe is a fixed function of `(ip, port)`. Two probes of the same port in one scan therefore see the same outcome, which a live network need not give.
- Threading: `threading.Thread`, `start` and `join` (Portscanner.py:62-72) run sequentially. Each probe appends its record when it is started. The concurrent completion order and the thread-safety of `list.append` are not modelled.
- `Scanner.ScanPorts`: its results are stated in input order. That order holds for the sequential model only. With real threads, the order within a batch follows completion, and only the multiset of records is fixed.
- `verbose` and the console `print` calls (Portscanner.py:52, 96, 103) are output only.
- `argparse` handling (Portscanner.py:78-85) is I/O.
- The per-target loop of `main` (Portscanner.py:95-103) only calls `scan_ports` and writes the JSON file, overwriting it for every target (Portscanner.py:100-101). It is I/O.
- The unused `tqdm` import (Portscanner.py:5) is not modelled.
- `PortRange.ParseInt`: it models `int()` on ASCII text: surrounding space, `\t`, `\n`, `\v`, `\f` or `\r`, an optional sign, and digits with single underscores between them. The non-ASCII digits and whitespace that Python's `int()` also accepts are not modelled. From Python 3.11, `int()` raises `ValueError` for decimal text longer than 4300 digits, and the model accepts such text.
