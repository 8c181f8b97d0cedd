/** An optional value: a field of a JavaScript object that is either present
    with a value or `undefined`. */
module Options {

  datatype Option<+T> = None | Some(value: T)

}
