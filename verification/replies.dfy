/** The one-line confirmation or error a form shows after it is submitted. */
module Replies {

  datatype Reply = Success(message: string) | Error(message: string)
}
