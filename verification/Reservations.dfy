/** The part of a provisioning reservation that the gateway's own code reads. */
module Reservations {

  /** A `versioned` schema version. */
  datatype Version = Version(major: nat, minor: nat, patch: nat)
  {
    predicate AtMost(v: Version)
    {
      || major < v.major
      || (major == v.major && (minor < v.minor || (minor == v.minor && patch <= v.patch)))
    }
  }

  datatype Kind = Proxy | ReverseProxy | SubDomain | DomainDelegate | Gateway4To6 | Other(name: string)

  datatype Reservation = Reservation(id: string, user: string, kind: Kind, created: int, duration: int, source: string)
}
