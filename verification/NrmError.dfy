/** The error codes of the library that the model returns. */
module NrmError {
  datatype Status = NrmSuccess | NrmFailure | NrmEinval | NrmEnotfound | NrmEdom
}
