/** The optional-value type the model uses for the source's failure returns
    (an empty string, a null pointer, std::string::npos). */
module Options {

  datatype Option<+T> = None | Some(value: T)

}
