/** The optional value used for absent environment variables, the published track and a playback error. */
module Options {
  datatype Option<+T> = None | Some(value: T)
}
