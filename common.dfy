/** Result types shared by the router model. */
module Common {

  datatype Option<T> = None | Some(value: T)

  /** The ways an operation of the router stops with an exception that nothing catches. */
  datatype Fault =
    | UnknownProtocol(tag: string)  // a protocol name or tag that is neither data nor control
    | MissingKey                    // a routing-table lookup raises KeyError
    | BadIndex                      // an empty neighbour name or an interface number out of range (IndexError)
    | Malformed                     // the control payload is not a table literal

  datatype Result<T> = Ok(value: T) | Err(fault: Fault)
}
