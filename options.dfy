/** The conventional optional value, standing for JavaScript's `undefined`
    result of a lookup that found nothing. */
module Options {

  datatype Option<+T> = None | Some(value: T)
}
