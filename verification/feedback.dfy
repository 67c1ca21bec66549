/** What a page does for the user once a mutation has answered. */
module Feedback {
  import opened Wrappers

  /** Show an error toast and stay, or reload the page, toasting a success
      message first when there is one. */
  datatype Outcome = ErrorToast(text: string) | Reload(successToast: Option<string>)
}
