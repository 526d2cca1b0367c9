// The life of an edge node.
module NodeStatuses {
  datatype Status = Pending | Active | Draining | Revoked | Uninstalling | Uninstalled

  // The node gets no states any more.
  predicate IsRetired(s: Status) {
    s in {Revoked, Uninstalling, Uninstalled}
  }
}
