/** The service classifier: a fixed table from well-known port numbers to the
    label of the service usually listening there (Portscanner.py, lines 8-28). */
module Services {

  /** Label of an open port that the table does not list. */
  const UnknownService: string := "Unknown Service"

  /** Label the scanner reserves for a port that gave no banner. */
  const Closed: string := "Closed"

  /** The process-wide, read-only table of known services. */
  const ServiceCategories: map<int, string> := map[
    20 := "FTP (File Transfer Protocol)",
    21 := "FTP (File Transfer Protocol)",
    22 := "SSH (Secure Shell)",
    23 := "Telnet",
    25 := "SMTP (Simple Mail Transfer Protocol)",
    53 := "DNS (Domain Name System)",
    80 := "HTTP (HyperText Transfer Protocol)",
    110 := "POP3 (Post Office Protocol)",
    143 := "IMAP (Internet Message Access Protocol)",
    443 := "HTTPS (Secure HTTP)",
    3306 := "MySQL Database",
    5432 := "PostgreSQL Database",
    6379 := "Redis",
    27017 := "MongoDB",
    8080 := "HTTP Proxy"
  ]

  /** The ports the table knows. */
  const KnownPorts: set<int> :=
    {20, 21, 22, 23, 25, 53, 80, 110, 143, 443, 3306, 5432, 6379, 27017, 8080}

  /** Classifies a port; total and pure, so the same port always gets the
      same label. The sentinel is returned exactly for the unlisted ports, and
      no label is ever the scanner's "Closed" sentinel. */
  function CategorizeService(port: int): (service: string)
    ensures port in KnownPorts ==> service == ServiceCategories[port]
    ensures service == UnknownService <==> port !in KnownPorts
    ensures service != Closed
  {
    if port in ServiceCategories then ServiceCategories[port] else UnknownService
  }

  /** The table lists exactly the fifteen known ports. */
  lemma KnownPortsAreTableKeys()
    ensures ServiceCategories.Keys == KnownPorts
  {
  }
}
