/** Failure handling of the converter.  Every `bail!` and every `?` of the
    original becomes an `Err` carrying one of these kinds; the context chain
    that anyhow attaches is not behaviour and is not kept. */
module Outcomes {

  datatype Error =
    | MalformedInput      // the XML reader could not produce the next event
    | UnexpectedEvent     // an event that the current handler has no arm for
    | UnexpectedStart     // a start tag outside the current handler's vocabulary
    | UnexpectedEmpty     // an empty-element tag outside the current handler's vocabulary
    | InputEnded          // the input ran out inside an element whose content is skipped
    | MissingAttribute    // a required attribute (href, linkend, url, fileref) is absent
    | UnresolvableLink    // a linkend that matches no resolution rule
    | UnknownInclude      // an xi:include href missing from the summary title table

  datatype Option<+T> = None | Some(value: T)

  /** Failure-compatible result, so that `:-` plays the part of Rust's `?`. */
  datatype Result<+T> = Ok(value: T) | Err(error: Error) {
    predicate IsFailure() {
      Err?
    }

    function PropagateFailure<U>(): Result<U>
      requires Err?
    {
      Err(error)
    }

    function Extract(): T
      requires Ok?
    {
      value
    }
  }
}
