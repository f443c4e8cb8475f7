/** Failure-carrying result types shared by the whole model, and the error
    conditions the modelled Go functions report. */
module Base {

  datatype Option<+T> = None | Some(value: T)

  /** The errors returned by the modelled functions, one constructor per
      distinct error of the source (its message text is not modelled). */
  datatype Error =
    | NoForeignClusterConnections            // the record list is nil or empty
    | NoValidCidrs                           // no record has a side-A pod CIDR
    | NoValidCidrsForCluster(name: string)   // nothing was collected for the cluster
    | NoConnectionForCluster(name: string)   // no record's side A names the cluster
    | InvalidIPAddress(address: string)      // the address does not parse
    | InvalidCIDR(cidr: string)              // the block does not parse
    | MappingFailed(reason: string)          // an error of the IPAM mapping call

  datatype Result<+T> = Ok(value: T) | Err(error: Error)
}
