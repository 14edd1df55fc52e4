/** An error answer of a route handler: the HTTP status and the detail text. */
module Http {
  datatype HttpError = HttpError(status: nat, detail: string)
}
