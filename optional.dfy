/** An optional value: stands for `T | undefined` in the game's source. */
module Optional {

  datatype Option<+T> = None | Some(value: T)
}
