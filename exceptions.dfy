/**
  The library's error hierarchy: one base kind with three subclasses. The base
  class is never raised on its own, so only the three leaves are variants here;
  each carries the message the raising site formats.
 */
module Exceptions {

  datatype EsewaError =
    | ValidationError(message: string)
    | PaymentRequestError(message: string)
    | StatusCheckError(message: string)
}
