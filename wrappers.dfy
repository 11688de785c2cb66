/** The optional value every other module uses: a JavaScript `undefined`,
    `null` or a payload that did not parse is `None`. */
module Wrappers {

  datatype Option<T> = None | Some(value: T)
}
