/** Outcome types shared by the bot's operations. */
module Results {

  datatype Option<+T> = None | Some(value: T)

  /** The ways an administrative operation ends without a value. `Http` is the
      `{statusCode, info: {field: [message]}}` object the bot throws;
      `Crash` is a JavaScript TypeError (a property read of `undefined`). */
  datatype Failure =
    | Http(status: nat, field: string, message: string)
    | Crash

  datatype Result<+T> = Ok(value: T) | Err(failure: Failure)
}
