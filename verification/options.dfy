/** The optional value the game uses for "a click may or may not target a cell". */
module Options {

  datatype Option<+T> = None | Some(value: T)
}
