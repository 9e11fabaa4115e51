/** The lifetime limit of a package, in cents, and what has been paid against it. */
module PackageCap {
  datatype Cap = Cap(total: int, paid: int)
}
