/** Values shared by the background service: tracked changes, connection
    options, the exceptions that escape an operation, and the side effects
    the service has on the browser. */
module Records {

  datatype Option<+T> = None | Some(value: T)

  /** An exception that escapes an operation, so that the promise it returns
      is rejected. Each one names the expression of the source that throws. */
  datatype Fault =
    | UndefinedConfigField       // `.length` of an options field that is not set
    | UndefinedId                // `chid.toString()` on an entry without an id
    | Unparsable                 // `JSON.parse` rejects the body of a reply
    | UndefinedNumber            // `_number.toString()` on a reply without a number
    | UndefinedLabel(name: string) // a label the reply does not carry
    | NoNonZeroVote              // `reviews[0].value` when no vote is non-zero
    | UndefinedItem              // `item.value`, a name that is not defined

  datatype Result<+T> = Ok(value: T) | Err(fault: Fault)

  /** A tracked change as the service stores it: a JavaScript object whose
      keys may be absent. `None` stands for an absent key, so datatype
      equality is the structural (deep) equality of two such objects. */
  datatype Change = Change(
    id: Option<string>,
    subject: Option<string>,
    status: Option<string>,
    codeReview: Option<int>,
    verified: Option<int>,
    updated: Option<bool>,
    error: Option<bool>)

  /** The object without any key, `{}`. */
  const Blank: Change := Change(None, None, None, None, None, None, None)

  /** The entry an add-change request puts in front of the list. */
  function Placeholder(id: string): Change {
    Blank.(id := Some(id), codeReview := Some(0), verified := Some(0))
  }

  /** What a query yields when the request itself fails. */
  function ErrorEntry(id: string): Change {
    Blank.(id := Some(id), error := Some(true))
  }

  datatype Credentials = Credentials(email: Option<string>, password: Option<string>)

  datatype Options = Options(
    refreshTime: Option<int>,
    endpoint: Option<string>,
    credentials: Option<Credentials>)

  /** The options object without any key, `{}`. */
  const NoOptions: Options := Options(None, None, None)

  /** A recurring timer: the handle `setInterval` returned and its period. */
  datatype Timer = Timer(handle: nat, periodMs: int)

  /** A side effect of the service, in the order it happens. */
  datatype Effect =
    | Request(url: string)              // a GET to the review server
    | Rejected(fault: Fault)            // the operation ended with an exception
    | StopCalled                        // the cycle called its stop callback
    | RestartCalled                     // the cycle called its restart callback
    | SendUpdate(changes: seq<Change>)  // an update message to the open popup
    | Badge(text: string)               // the text of the toolbar badge
    | Notify(title: string, message: string) // a desktop notification
    | Armed(timer: Timer)               // `setInterval` started a timer
    | Cleared(polling: Option<Timer>)   // `clearInterval` on the current handle
    | OpenTab(url: string)              // a new browser tab
}
