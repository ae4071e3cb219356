/** Python values that may be `None`: the optional arguments and the
    attributes the code leaves unset. */
module PyNone {

  datatype Nullable<T> = Null | Value(value: T)
}
