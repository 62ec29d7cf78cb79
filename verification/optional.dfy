/** The optional value the form uses for "maybe a file", "maybe a preview" and
    "maybe an error message". */
module Optional {

  datatype Option<+T> = None | Some(value: T)
}
