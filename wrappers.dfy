/** Option and Result, plus the error vocabulary of the converter.
    Each `Error` constructor stands for one of the wrapped Go errors. */
module Wrappers {

  datatype Option<+T> = None | Some(value: T)

  datatype Error =
    | NilPlan                      // "nil plan supplied"
    | InvalidInput                 // "cannot parse input" / "invalid input"
    | SanitizeFailed               // "failed to sanitize plan"
    | EncodingFailed               // a json.MarshalIndent inside the value formatter failed
    | BeforeInvalid                // "invalid resource changes (before)"
    | AfterInvalid                 // "invalid resource changes (after)"
    | DiffFailed                   // "failed to create diff"
    | TemplateFailed(cause: Error) // "failed to render template: %w"
    | PlanDataFailed(cause: Error) // "invalid plan data: %w"
    | ChangesInvalid(cause: Error) // "invalid resource changes: %w"
    | PrettifyFailed(cause: Error) // "failed to prettify plan: %w"

  datatype Result<+T> = Ok(value: T) | Err(error: Error)
}
