/** An optional value: used for lookups that may miss and for handlers that
    return early without touching state. */
module Optional {

  datatype Option<T> = None | Some(value: T)

}
