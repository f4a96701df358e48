/** The optional value returned by the searches of the model (indexOf, Array.prototype.find). */
module Maybe {
  datatype Option<T> = None | Some(value: T)
}
