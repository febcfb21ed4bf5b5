/** The optional value used wherever the script raises a KeyError, an
    IndexError or a ValueError: None stands for "the script stops here". */
module Options {

  datatype Option<+T> = None | Some(value: T)

}
